/** Domain names in DNS messages, in full or ending in compression pointers (section 4.1.4 of
    RFC 1035). */
module DnsNames {
  import opened Common

  type Label = Bytes

  const MAX_HOPS: nat := 64
  const DOT: byte := 46

  /** A name that runs out of data or follows too many pointers raises `ValueError`; a pointer
      whose second byte is missing raises `struct.error`. */
  datatype NameError = Truncated | Loop | LonePointer

  /** The low 14 bits of two bytes whose high two bits are set. */
  function Pointer(hi: int, lo: int): int {
    256 * (hi - 192) + lo
  }

  /** At most `n` bytes from `from` on, as far as there are any. */
  function Clip(data: Bytes, from: nat, n: nat): (part: Bytes)
    ensures |part| <= n && (from <= |data| ==> from + |part| <= |data|)
    ensures from + n <= |data| ==> |part| == n
    decreases n
  {
    if n == 0 || from >= |data| then [] else [data[from]] + Clip(data, from + 1, n - 1)
  }

  /** That is what slicing gives: `data[from : from + n]`, cut at the end of the data. */
  lemma {:induction false} ClipIsSlice(data: Bytes, from: nat, n: nat)
    requires from <= |data|
    ensures from + n <= |data| ==> Clip(data, from, n) == data[from..from + n]
    ensures from + n > |data| ==> Clip(data, from, n) == data[from..]
    decreases n
  {
    if n > 0 && from < |data| {
      ClipIsSlice(data, from + 1, n - 1);
    }
  }

  lemma {:induction false} ClipOfConcat(data: Bytes, more: Bytes, from: nat, n: nat)
    ensures Clip(data, from, n) <= Clip(data + more, from, n) || from >= |data|
    ensures from + n <= |data| ==> Clip(data + more, from, n) == Clip(data, from, n)
    decreases n
  {
    if n > 0 && from < |data| {
      assert (data + more)[from] == data[from];
      ClipOfConcat(data, more, from + 1, n - 1);
    }
  }

  // ---- what a name means

  /** The name at `offset` reads as `labels` and takes exactly `jumps` pointers to read. */
  ghost predicate Names(data: Bytes, offset: nat, labels: seq<Label>, jumps: nat)
    decreases jumps, |data| - offset
  {
    && offset < |data|
    && var length := data[offset];
       if length == 0 then labels == [] && jumps == 0
       else if length >= 192 then
         offset + 1 < |data| && jumps > 0 && Names(data, Pointer(length, data[offset + 1]), labels, jumps - 1)
       else
         && offset + 1 + length < |data| && labels != []
         && labels[0] == Clip(data, offset + 1, length)
         && Names(data, offset + 1 + length, labels[1..], jumps)
  }

  /** Where the bytes of the name at `offset` itself end: after its zero byte, or after its
      first pointer. */
  function NameEnd(data: Bytes, offset: nat): nat
    decreases |data| - offset
  {
    if offset >= |data| || data[offset] == 0 then offset + 1
    else if data[offset] >= 192 then offset + 2
    else NameEnd(data, offset + 1 + data[offset])
  }

  // ---- how the code reads it

  /** The reading of the rest of a name, `hops` pointers into it. */
  function Walk(data: Bytes, offset: nat, hops: nat): Result<seq<Label>, NameError>
    requires hops <= MAX_HOPS
    decreases MAX_HOPS - hops, |data| - offset
  {
    if offset >= |data| then Err(Truncated)
    else
      var length := data[offset];
      if length == 0 then Ok([])
      else if length >= 192 then
        if offset + 1 >= |data| then Err(LonePointer)
        else if hops + 1 > MAX_HOPS then Err(Loop)
        else Walk(data, Pointer(length, data[offset + 1]), hops + 1)
      else Prepend([Clip(data, offset + 1, length)], Walk(data, offset + 1 + length, hops))
  }

  function Prepend(labels: seq<Label>, r: Result<seq<Label>, NameError>): Result<seq<Label>, NameError> {
    match r
    case Ok(more) => Ok(labels + more)
    case Err(e) => Err(e)
  }

  /** The labels joined by dots. */
  function Join(labels: seq<Label>): Bytes {
    if labels == [] then []
    else if |labels| == 1 then labels[0]
    else labels[0] + [DOT] + Join(labels[1..])
  }

  function ReadNameSpec(data: Bytes, offset: nat): Result<(seq<Label>, nat), NameError> {
    match Walk(data, offset, 0)
    case Ok(labels) => Ok((labels, NameEnd(data, offset)))
    case Err(e) => Err(e)
  }

  /** `_read_name`. It terminates because every turn either takes one of the 64 hops or moves
      on through the data. */
  method ReadName(data: Bytes, start: nat) returns (r: Result<(Bytes, nat), NameError>)
    ensures r == match ReadNameSpec(data, start)
                 case Ok((labels, end)) => Ok((Join(labels), end))
                 case Err(e) => Err(e)
  {
    var labels: seq<Label> := [];
    var offset: nat, end: nat, jumped, hops: nat := start, start, false, 0;
    PrependNothing(Walk(data, start, 0));
    while true
      invariant hops <= MAX_HOPS
      invariant Prepend(labels, Walk(data, offset, hops)) == Walk(data, start, 0)
      invariant NameEnd(data, start) == if jumped then end else NameEnd(data, offset)
      decreases MAX_HOPS - hops, |data| - offset
    {
      if offset >= |data| {
        return Err(Truncated);
      }
      var length := data[offset];
      if length == 0 {
        offset := offset + 1;
        Unit(labels);
        break;
      }
      if length >= 192 {
        if offset + 1 >= |data| {
          return Err(LonePointer);
        }
        var pointer := Pointer(length, data[offset + 1]);
        if !jumped {
          end := offset + 2;
        }
        jumped := true;
        offset := pointer;
        hops := hops + 1;
        if hops > MAX_HOPS {
          return Err(Loop);
        }
        continue;
      }
      var piece := Clip(data, offset + 1, length);
      PrependTwice(labels, [piece], Walk(data, offset + 1 + length, hops));
      labels := labels + [piece];
      offset := offset + 1 + length;
    }
    if !jumped {
      end := offset;
    }
    r := Ok((Join(labels), end));
  }

  lemma PrependNothing(r: Result<seq<Label>, NameError>)
    ensures Prepend([], r) == r
  {
    if r.Ok? {
      Unit(r.value);
    }
  }

  lemma PrependTwice(x: seq<Label>, y: seq<Label>, r: Result<seq<Label>, NameError>)
    ensures Prepend(x, Prepend(y, r)) == Prepend(x + y, r)
  {
    if r.Ok? {
      Assoc(x, y, r.value);
    }
  }

  // ---- the code reads what the name means

  lemma {:induction false} WalkIsSound(data: Bytes, offset: nat, hops: nat)
    requires hops <= MAX_HOPS && Walk(data, offset, hops).Ok?
    ensures exists k | 0 <= k <= MAX_HOPS - hops :: Names(data, offset, Walk(data, offset, hops).value, k)
    decreases MAX_HOPS - hops, |data| - offset
  {
    var labels, length := Walk(data, offset, hops).value, data[offset];
    if length == 0 {
      assert Names(data, offset, labels, 0);
    } else if length >= 192 {
      var pointer := Pointer(length, data[offset + 1]);
      WalkIsSound(data, pointer, hops + 1);
      var k :| 0 <= k <= MAX_HOPS - hops - 1 && Names(data, pointer, labels, k);
      assert Names(data, offset, labels, k + 1);
    } else {
      WalkIsSound(data, offset + 1 + length, hops);
      var more := Walk(data, offset + 1 + length, hops).value;
      var k :| 0 <= k <= MAX_HOPS - hops && Names(data, offset + 1 + length, more, k);
      assert labels[1..] == more;
      assert Names(data, offset, labels, k);
    }
  }

  lemma {:induction false} WalkIsComplete(data: Bytes, offset: nat, labels: seq<Label>, jumps: nat, hops: nat)
    requires Names(data, offset, labels, jumps) && hops <= MAX_HOPS
    ensures Walk(data, offset, hops) ==
            if hops + jumps <= MAX_HOPS then Ok(labels) else Err(Loop)
    decreases jumps, |data| - offset
  {
    var length := data[offset];
    if length == 0 {
    } else if length >= 192 {
      if hops < MAX_HOPS {
        WalkIsComplete(data, Pointer(length, data[offset + 1]), labels, jumps - 1, hops + 1);
      }
    } else {
      WalkIsComplete(data, offset + 1 + length, labels[1..], jumps, hops);
      assert labels == [labels[0]] + labels[1..];
    }
  }

  /** `_read_name` returns some labels exactly when the name at the offset reads as those labels
      with at most 64 pointers. */
  lemma ReadNameRefinesNames(data: Bytes, offset: nat, labels: seq<Label>)
    ensures (ReadNameSpec(data, offset).Ok? && ReadNameSpec(data, offset).value.0 == labels) <==>
            exists k | 0 <= k <= 64 :: Names(data, offset, labels, k)
  {
    if Walk(data, offset, 0).Ok? {
      WalkIsSound(data, offset, 0);
    }
    if k :| 0 <= k <= MAX_HOPS && Names(data, offset, labels, k) {
      WalkIsComplete(data, offset, labels, k, 0);
    }
  }

  /** A name has one reading. */
  lemma {:induction false} NamesUnique(data: Bytes, offset: nat, ls: seq<Label>, j: nat, ms: seq<Label>, k: nat)
    requires Names(data, offset, ls, j) && Names(data, offset, ms, k)
    ensures ls == ms && j == k
    decreases j, |data| - offset
  {
    var length := data[offset];
    if length == 0 {
    } else if length >= 192 {
      NamesUnique(data, Pointer(length, data[offset + 1]), ls, j - 1, ms, k - 1);
    } else {
      NamesUnique(data, offset + 1 + length, ls[1..], j, ms[1..], k);
      assert ls == [ls[0]] + ls[1..] && ms == [ms[0]] + ms[1..];
    }
  }

  /** Reading on from `offset`, past labels and `jumps` pointers, one comes to `there`. */
  ghost predicate Reaches(data: Bytes, offset: nat, there: nat, jumps: nat)
    decreases jumps, |data| - offset
  {
    || (offset == there && jumps == 0)
    || (offset < |data| && data[offset] != 0 &&
        if data[offset] >= 192 then
          offset + 1 < |data| && jumps > 0 && Reaches(data, Pointer(data[offset], data[offset + 1]), there, jumps - 1)
        else Reaches(data, offset + 1 + data[offset], there, jumps))
  }

  lemma {:induction false} NamesThrough(data: Bytes, offset: nat, there: nat, j: nat, labels: seq<Label>, k: nat)
    returns (rest: seq<Label>)
    requires Reaches(data, offset, there, j) && Names(data, offset, labels, k)
    ensures j <= k && Names(data, there, rest, k - j)
    decreases j, |data| - offset
  {
    rest := labels;
    if !(offset == there && j == 0) {
      if data[offset] >= 192 {
        rest := NamesThrough(data, Pointer(data[offset], data[offset + 1]), there, j - 1, labels, k - 1);
      } else {
        rest := NamesThrough(data, offset + 1 + data[offset], there, j, labels[1..], k);
      }
    }
  }

  /** A name that runs into a pointer cycle is never read: no reading exists, and the code
      fails. */
  lemma CyclesFail(data: Bytes, offset: nat, there: nat, j: nat, turn: nat)
    requires Reaches(data, offset, there, j) && Reaches(data, there, there, turn) && turn > 0
    ensures forall labels, k: nat :: !Names(data, offset, labels, k)
    ensures ReadNameSpec(data, offset).Err?
  {
    forall labels, k: nat ensures !Names(data, offset, labels, k) {
      if Names(data, offset, labels, k) {
        var here := NamesThrough(data, offset, there, j, labels, k);
        var again := NamesThrough(data, there, there, turn, here, k - j);
        NamesUnique(data, there, here, k - j, again, k - j - turn);
      }
    }
    if ReadNameSpec(data, offset).Ok? {
      ReadNameRefinesNames(data, offset, ReadNameSpec(data, offset).value.0);
    }
  }

  /** A name that is read begins inside the data, and its own bytes are at least one and end
      inside the data. */
  lemma {:induction false} NameStaysInside(data: Bytes, offset: nat, labels: seq<Label>, jumps: nat)
    requires Names(data, offset, labels, jumps)
    ensures offset < NameEnd(data, offset) <= |data|
    decreases |data| - offset
  {
    var length := data[offset];
    if 0 < length < 192 {
      NameStaysInside(data, offset + 1 + length, labels[1..], jumps);
    }
  }

  // ---- more data does not change a reading

  /** Appending bytes changes neither the reading nor the end of a name that was readable,
      even when its pointers point forward. */
  lemma {:induction false} NamesMonotone(data: Bytes, more: Bytes, offset: nat, labels: seq<Label>, jumps: nat)
    requires Names(data, offset, labels, jumps)
    ensures Names(data + more, offset, labels, jumps)
    ensures NameEnd(data + more, offset) == NameEnd(data, offset)
    decreases jumps, |data| - offset
  {
    var length := data[offset];
    assert (data + more)[offset] == length;
    if length == 0 {
    } else if length >= 192 {
      assert (data + more)[offset + 1] == data[offset + 1];
      NamesMonotone(data, more, Pointer(length, data[offset + 1]), labels, jumps - 1);
    } else {
      NamesMonotone(data, more, offset + 1 + length, labels[1..], jumps);
      ClipOfConcat(data, more, offset + 1, length);
    }
  }

  lemma ReadNameMonotone(data: Bytes, more: Bytes, offset: nat)
    requires ReadNameSpec(data, offset).Ok?
    ensures ReadNameSpec(data + more, offset) == ReadNameSpec(data, offset)
  {
    WalkIsSound(data, offset, 0);
    var labels := Walk(data, offset, 0).value;
    var k :| 0 <= k <= MAX_HOPS && Names(data, offset, labels, k);
    NamesMonotone(data, more, offset, labels, k);
    WalkIsComplete(data + more, offset, labels, k, 0);
  }

  // ---- writing a name

  predicate IsDot(b: byte) {
    b == DOT
  }

  function StripDots(s: Bytes): Bytes {
    Strip(s, IsDot)
  }

  /** `split`: the pieces between dots, one more than there are dots. */
  function Split(s: Bytes): (pieces: seq<Label>)
    ensures pieces != []
  {
    if s == [] then [[]]
    else
      var rest := Split(s[1..]);
      if s[0] == DOT then [[]] + rest else [[s[0]] + rest[0]] + rest[1..]
  }

  predicate Fit(labels: seq<Label>) {
    forall i :: 0 <= i < |labels| ==> |labels[i]| < 256
  }

  function EncodeLabels(labels: seq<Label>): Bytes
    requires Fit(labels)
  {
    if labels == [] then [] else [|labels[0]|] + labels[0] + EncodeLabels(labels[1..])
  }

  /** `_encode_name`; a label of 256 bytes or more is a `ValueError`. */
  function EncodeNameSpec(name: Bytes): Option<Bytes> {
    var labels := Split(StripDots(name));
    if Fit(labels) then Some(EncodeLabels(labels) + [0]) else None
  }

  method EncodeName(name: Bytes) returns (r: Option<Bytes>)
    ensures r == EncodeNameSpec(name)
  {
    var labels := Split(StripDots(name));
    var out: Bytes := [];
    for i := 0 to |labels|
      invariant Fit(labels[..i])
      invariant out == EncodeLabels(labels[..i])
    {
      if |labels[i]| >= 256 {
        return None;
      }
      EncodeLabelsSnoc(labels[..i], labels[i]);
      assert labels[..i + 1] == labels[..i] + [labels[i]];
      out := out + [|labels[i]|] + labels[i];
    }
    assert labels[..|labels|] == labels;
    r := Some(out + [0]);
  }

  lemma {:induction false} EncodeLabelsSnoc(labels: seq<Label>, last: Label)
    requires |last| < 256 && Fit(labels)
    ensures EncodeLabels(labels + [last]) == EncodeLabels(labels) + [|last|] + last
  {
    if labels != [] {
      assert (labels + [last])[1..] == labels[1..] + [last];
      EncodeLabelsSnoc(labels[1..], last);
    }
  }

  /** The labels of an ordinary name: not empty and without dots. */
  predicate Proper(labels: seq<Label>) {
    labels != [] && forall i :: 0 <= i < |labels| ==> labels[i] != [] && DOT !in labels[i]
  }

  lemma {:induction false} SplitLabel(l: Label)
    requires DOT !in l
    ensures Split(l) == [l]
  {
    if l != [] {
      SplitLabel(l[1..]);
      assert l == [l[0]] + l[1..];
    }
  }

  lemma {:induction false} SplitAtDot(l: Label, rest: Bytes)
    requires DOT !in l
    ensures Split(l + [DOT] + rest) == [l] + Split(rest)
  {
    if l == [] {
      assert l + [DOT] + rest == [DOT] + rest;
    } else {
      SplitAtDot(l[1..], rest);
      assert (l + [DOT] + rest)[1..] == l[1..] + [DOT] + rest;
      assert l == [l[0]] + l[1..];
    }
  }

  lemma {:induction false} SplitOfJoin(labels: seq<Label>)
    requires Proper(labels)
    ensures Split(Join(labels)) == labels
    ensures Join(labels) != [] && Join(labels)[0] != DOT && Join(labels)[|Join(labels)| - 1] != DOT
  {
    if |labels| == 1 {
      SplitLabel(labels[0]);
    } else {
      SplitOfJoin(labels[1..]);
      SplitAtDot(labels[0], Join(labels[1..]));
    }
  }

  predicate Short(labels: seq<Label>) {
    forall i :: 0 <= i < |labels| ==> 1 <= |labels[i]| <= 191
  }

  /** Names that are read have labels of 1 to 191 bytes: a longer length byte is a pointer. */
  lemma {:induction false} NamesAreShort(data: Bytes, offset: nat, labels: seq<Label>, jumps: nat)
    requires Names(data, offset, labels, jumps)
    ensures Short(labels)
    decreases jumps, |data| - offset
  {
    var length := data[offset];
    if length >= 192 {
      NamesAreShort(data, Pointer(length, data[offset + 1]), labels, jumps - 1);
    } else if length > 0 {
      NamesAreShort(data, offset + 1 + length, labels[1..], jumps);
    }
  }

  /** `part` stands in `data` at `offset`. */
  predicate At(data: Bytes, offset: nat, part: Bytes) {
    offset + |part| <= |data| && forall i :: 0 <= i < |part| ==> part[i] == data[offset + i]
  }

  lemma AtSplit(data: Bytes, offset: nat, x: Bytes, y: Bytes)
    ensures At(data, offset, x + y) <==> At(data, offset, x) && At(data, offset + |x|, y)
  {
    if At(data, offset, x + y) {
      forall i | 0 <= i < |x| ensures x[i] == data[offset + i] {
        assert (x + y)[i] == x[i];
      }
      forall i | 0 <= i < |y| ensures y[i] == data[offset + |x| + i] {
        assert (x + y)[|x| + i] == y[i];
      }
    }
  }

  /** `labels` are spelled out from `offset` to `tail`. */
  predicate Spelled(data: Bytes, offset: nat, labels: seq<Label>, tail: nat)
    decreases |labels|
  {
    if labels == [] then tail == offset
    else
      var n := |labels[0]|;
      && offset + 1 + n <= |data| && data[offset] == n && Clip(data, offset + 1, n) == labels[0]
      && Spelled(data, offset + 1 + n, labels[1..], tail)
  }

  lemma {:induction false} EncodedIsSpelled(data: Bytes, offset: nat, labels: seq<Label>)
    requires Fit(labels)
    requires At(data, offset, EncodeLabels(labels))
    ensures Spelled(data, offset, labels, offset + |EncodeLabels(labels)|)
    decreases |labels|
  {
    if labels != [] {
      var l, rest := labels[0], labels[1..];
      AtSplit(data, offset, [|l|] + l, EncodeLabels(rest));
      LabelIsSpelled(data, offset, l);
      EncodedIsSpelled(data, offset + 1 + |l|, rest);
    }
  }

  lemma LabelIsSpelled(data: Bytes, offset: nat, l: Label)
    requires |l| < 256 && At(data, offset, [|l|] + l)
    ensures offset + 1 + |l| <= |data| && data[offset] == |l| && Clip(data, offset + 1, |l|) == l
  {
    AtSplit(data, offset, [|l|], l);
    assert [|l|][0] == data[offset];
    ClipIsPart(data, offset + 1, l);
  }

  lemma {:induction false} ClipIsPart(data: Bytes, offset: nat, part: Bytes)
    requires At(data, offset, part)
    ensures Clip(data, offset, |part|) == part
    decreases |part|
  {
    if part != [] {
      AtSplit(data, offset, [part[0]], part[1..]);
      assert part == [part[0]] + part[1..];
      ClipIsPart(data, offset + 1, part[1..]);
    }
  }

  /** Labels in front of a readable name make a longer readable name. */
  lemma {:induction false} LabelsThenName(data: Bytes, offset: nat, labels: seq<Label>, tail: nat, more: seq<Label>,
                                          jumps: nat, all: seq<Label>)
    requires Spelled(data, offset, labels, tail) && Names(data, tail, more, jumps)
    requires all == labels + more && Short(labels)
    ensures Names(data, offset, all, jumps)
    ensures NameEnd(data, offset) == NameEnd(data, tail)
    decreases |labels|
  {
    if labels == [] {
      Unit(more);
    } else {
      var next, rest := offset + 1 + |labels[0]|, all[1..];
      assert all[0] == labels[0] && rest == labels[1..] + more;
      LabelsThenName(data, next, labels[1..], tail, more, jumps, rest);
      NameIsReadable(data, next, rest, jumps);
    }
  }

  lemma NameIsReadable(data: Bytes, offset: nat, labels: seq<Label>, jumps: nat)
    requires Names(data, offset, labels, jumps)
    ensures offset < |data|
  {
  }

  /** The root, and a pointer, as the end of a name. */
  lemma RootIsName(data: Bytes, offset: nat)
    requires At(data, offset, [0])
    ensures Names(data, offset, [], 0) && NameEnd(data, offset) == offset + 1
  {
    assert [0][0] == data[offset];
  }

  lemma PointerIsName(data: Bytes, offset: nat, hi: byte, lo: byte, labels: seq<Label>, jumps: nat)
    requires hi >= 192 && At(data, offset, [hi, lo])
    requires jumps > 0 && Names(data, Pointer(hi, lo), labels, jumps - 1)
    ensures Names(data, offset, labels, jumps) && NameEnd(data, offset) == offset + 2
  {
    assert [hi, lo][0] == data[offset] && [hi, lo][1] == data[offset + 1];
  }

  /** Two bytes with the high two bits set point where their low 14 bits say, high byte first. */
  lemma PointerIsLow14Bits(hi: byte, lo: byte)
    requires hi >= 192
    ensures Pointer(hi, lo) == (256 * hi + lo) % 16384
  {
  }

  /** So a pointer to `target` is read as the name there, and ends after its two bytes. */
  lemma PointerLeads(data: Bytes, offset: nat, target: nat, labels: seq<Label>, jumps: nat)
    requires target < 16384 && offset + 1 < |data|
    requires data[offset] == 192 + target / 256 && data[offset + 1] == target % 256
    requires Names(data, target, labels, jumps) && jumps < 64
    ensures ReadNameSpec(data, offset) == Ok((labels, offset + 2))
  {
    PointerIsName(data, offset, data[offset], data[offset + 1], labels, jumps + 1);
    WalkIsComplete(data, offset, labels, jumps + 1, 0);
  }

  lemma ShortLabelsAreRead(data: Bytes, offset: nat, labels: seq<Label>)
    requires Short(labels)
    requires At(data, offset, EncodeLabels(labels) + [0])
    ensures Names(data, offset, labels, 0)
    ensures NameEnd(data, offset) == offset + |EncodeLabels(labels)| + 1
  {
    AtSplit(data, offset, EncodeLabels(labels), [0]);
    RootIsName(data, offset + |EncodeLabels(labels)|);
    EncodedIsSpelled(data, offset, labels);
    Unit(labels);
    LabelsThenName(data, offset, labels, offset + |EncodeLabels(labels)|, [], 0, labels);
  }

  /** Writing a name anywhere in a message and reading it back gives its labels, and its end,
      exactly when every label, between the dots that are left after stripping, has 1 to 191
      bytes. */
  lemma NameRoundTripIff(data: Bytes, offset: nat, name: Bytes, encoded: Bytes)
    requires EncodeNameSpec(name) == Some(encoded) && At(data, offset, encoded)
    ensures var labels := Split(StripDots(name));
            ReadNameSpec(data, offset) == Ok((labels, offset + |encoded|)) <==> Short(labels)
  {
    var labels := Split(StripDots(name));
    if Short(labels) {
      ShortLabelsAreRead(data, offset, labels);
      WalkIsComplete(data, offset, labels, 0, 0);
    } else if ReadNameSpec(data, offset) == Ok((labels, offset + |encoded|)) {
      ReadLabelsAreShort(data, offset);
    }
  }

  /** The labels read, joined again, are the name without the dots around it. */
  lemma {:induction false} JoinOfSplit(s: Bytes)
    ensures Join(Split(s)) == s
  {
    if s != [] {
      var rest := Split(s[1..]);
      JoinOfSplit(s[1..]);
      assert s == [s[0]] + s[1..];
      if s[0] == DOT {
        assert ([[]] + rest)[1..] == rest;
      } else {
        JoinOfLonger(s[0], rest);
      }
    }
  }

  lemma JoinOfLonger(c: byte, labels: seq<Label>)
    requires labels != []
    ensures Join([[c] + labels[0]] + labels[1..]) == [c] + Join(labels)
  {
    if |labels| > 1 {
      assert ([[c] + labels[0]] + labels[1..])[1..] == labels[1..];
    }
  }

  lemma ReadLabelsAreShort(data: Bytes, offset: nat)
    requires ReadNameSpec(data, offset).Ok?
    ensures Short(ReadNameSpec(data, offset).value.0)
  {
    WalkIsSound(data, offset, 0);
    var labels := Walk(data, offset, 0).value;
    var k :| 0 <= k <= MAX_HOPS && Names(data, offset, labels, k);
    NamesAreShort(data, offset, labels, k);
  }

  /** The empty name is written as an empty label and the root, two zero bytes, of which a
      reader takes only the first. */
  lemma EmptyNameTakesTwoBytes(post: Bytes)
    ensures EncodeNameSpec([]) == Some([0, 0])
    ensures ReadNameSpec([0, 0] + post, 0) == Ok(([], 1))
  {
    var labels: seq<Label> := [[]];
    assert labels == Split(StripDots([]));
    assert EncodeLabels(labels) == [0] + [] + EncodeLabels(labels[1..]);
    assert EncodeLabels(labels) + [0] == [0, 0];
  }

  lemma {:induction false} EncodeLabelsConcat(xs: seq<Label>, ys: seq<Label>)
    requires Fit(xs) && Fit(ys)
    ensures Fit(xs + ys) && EncodeLabels(xs + ys) == EncodeLabels(xs) + EncodeLabels(ys)
  {
    if xs == [] {
      Unit(ys);
    } else {
      EncodeLabelsConcat(xs[1..], ys);
      assert (xs + ys)[1..] == xs[1..] + ys;
      Assoc([|xs[0]|] + xs[0], EncodeLabels(xs[1..]), EncodeLabels(ys));
    }
  }

  lemma FourParts(x: Bytes, y: Bytes)
    ensures (x + ([0] + y)) + [0] == (x + [0]) + (y + [0])
  {
  }

  lemma CutEncoding(before: seq<Label>, after: seq<Label>)
    requires Fit(before) && Fit([[]] + after)
    ensures Fit(after) && Fit(before + ([[]] + after))
    ensures EncodeLabels(before + ([[]] + after)) + [0] == (EncodeLabels(before) + [0]) + (EncodeLabels(after) + [0])
  {
    EmptyFirst(after);
    EncodeLabelsConcat(before, [[]] + after);
    FourParts(EncodeLabels(before), EncodeLabels(after));
  }

  lemma FitParts(xs: seq<Label>, ys: seq<Label>)
    requires Fit(xs + ys)
    ensures Fit(xs) && Fit(ys)
  {
    assert forall i :: 0 <= i < |xs| ==> (xs + ys)[i] == xs[i];
    assert forall i :: 0 <= i < |ys| ==> (xs + ys)[|xs| + i] == ys[i];
  }

  /** An empty label inside a name ends it for a reader: of `before`, an empty label and
      `after`, what comes back is `before`. */
  lemma EmptyLabelCutsTheName(data: Bytes, offset: nat, name: Bytes, encoded: Bytes, before: seq<Label>,
                              after: seq<Label>)
    requires EncodeNameSpec(name) == Some(encoded) && At(data, offset, encoded)
    requires Split(StripDots(name)) == before + ([[]] + after) && Short(before)
    ensures ReadNameSpec(data, offset) == Ok((before, offset + |EncodeLabels(before)| + 1))
  {
    FitParts(before, [[]] + after);
    CutEncoding(before, after);
    AtSplit(data, offset, EncodeLabels(before) + [0], EncodeLabels(after) + [0]);
    ShortLabelsAreRead(data, offset, before);
    WalkIsComplete(data, offset, before, 0, 0);
  }

  lemma EmptyFirst(after: seq<Label>)
    requires Fit([[]] + after)
    ensures Fit(after) && EncodeLabels([[]] + after) == [0] + EncodeLabels(after)
  {
    var labels: seq<Label> := [[]] + after;
    assert labels[1..] == after;
    assert forall i :: 0 <= i < |after| ==> labels[i + 1] == after[i];
  }

  /** "a..b" is such a name, none of its labels being too long: it is read back as "a". */
  lemma DoubledDotCutsTheName(data: Bytes, offset: nat, encoded: Bytes)
    requires EncodeNameSpec([97, DOT, DOT, 98]) == Some(encoded) && At(data, offset, encoded)
    ensures ReadNameSpec(data, offset) == Ok(([[97]], offset + 3))
  {
    DoubledDotLabels();
    EmptyLabelCutsTheName(data, offset, [97, DOT, DOT, 98], encoded, [[97]], [[98]]);
    assert EncodeLabels([[97]]) == [1, 97];
  }

  lemma DoubledDotLabels()
    ensures Split(StripDots([97, DOT, DOT, 98])) == [[97]] + ([[]] + [[98]])
    ensures EncodeNameSpec([97, DOT, DOT, 98]).Some?
  {
    SplitLabel([98]);
    SplitAtDot([], [98]);
    SplitAtDot([97], [DOT, 98]);
    assert [] + [DOT] + [98] == [DOT, 98] && [97] + [DOT] + [DOT, 98] == [97, DOT, DOT, 98];
  }
}
