/** The merged view of what was discovered: hits from several sources, one entry a cooler. */
module Discoveries {
  import opened Common
  import opened Codecs

  datatype Discovered = Discovered(
    coolerId: string, name: string, hostname: Option<string>, ip: Option<string>, port: nat,
    firmware: Option<string>, sku: Option<string>, inst: Option<string>, sources: set<string>)

  function Dropping(s: string, c: char): string {
    if s == "" then "" else (if s[0] == c then "" else [s[0]]) + Dropping(s[1..], c)
  }

  /** `normalize_id`. */
  function NormalizeId(s: string): string {
    Lower(Trim(Dropping(Dropping(s, ':'), '-')))
  }

  function Last6(s: string): (r: string)
    ensures r == "" <==> s == ""
  {
    if |s| <= 6 then s else Last6(s[1..])
  }

  /** The part after the last underscore, or all of it. */
  function AfterLast(s: string): string {
    if '_' in s then AfterLast(s[1..]) else s
  }

  function ShortId(d: Discovered): string {
    if d.coolerId != "" then Last6(d.coolerId) else Lower(AfterLast(d.name))
  }

  predicate Matches(d: Discovered, id: string) {
    var wanted := NormalizeId(id);
    (d.coolerId != "" && wanted == d.coolerId) || (wanted != "" && Last6(wanted) == ShortId(d))
  }

  function KeyOf(d: Discovered): string {
    if ShortId(d) != "" then ShortId(d) else "name:" + Lower(d.name)
  }

  predicate Full(s: Option<string>) {
    s.Some? && s.value != ""
  }

  function Or(a: Option<string>, b: Option<string>): Option<string> {
    if Full(a) then a else b
  }

  function Merge(prev: Discovered, d: Discovered): Discovered {
    Discovered(
      if prev.coolerId != "" then prev.coolerId else d.coolerId,
      if prev.name != "" then prev.name else d.name,
      Or(prev.hostname, d.hostname), Or(prev.ip, d.ip),
      if prev.port != 0 then prev.port else d.port,
      Or(prev.firmware, d.firmware), Or(prev.sku, d.sku), Or(prev.inst, d.inst),
      prev.sources + d.sources)
  }

  function Remembered(found: map<string, Discovered>, d: Discovered): map<string, Discovered> {
    var key := KeyOf(d);
    found[key := if key in found then Merge(found[key], d) else d]
  }

  function RememberAll(hits: seq<Discovered>): map<string, Discovered> {
    if hits == [] then map[] else Remembered(RememberAll(hits[..|hits| - 1]), hits[|hits| - 1])
  }

  class Discovery {
    var found: map<string, Discovered>

    constructor ()
      ensures found == RememberAll([])
    {
      found := map[];
    }

    method Remember(d: Discovered)
      modifies this
      ensures found == Remembered(old(found), d)
    {
      var key := KeyOf(d);
      if key !in found {
        found := found[key := d];
        return;
      }
      var prev := found[key];
      found := found[key := Merge(prev, d)];
    }
  }

  /** `find_cooler`, on the entries in whatever order they are listed. */
  method FindCooler(entries: seq<Discovered>, id: string) returns (r: Option<Discovered>)
    ensures r.None? ==> forall i :: 0 <= i < |entries| ==> !Matches(entries[i], id)
    ensures r.Some? ==> r.value in entries && Matches(r.value, id)
  {
    for i := 0 to |entries|
      invariant forall j :: 0 <= j < i ==> !Matches(entries[j], id)
    {
      if Matches(entries[i], id) {
        return Some(entries[i]);
      }
    }
    return None;
  }

  // ---- merging keeps the key and what matches

  lemma {:induction false} AfterLastHasNone(s: string)
    ensures '_' !in AfterLast(s)
  {
    if '_' in s {
      AfterLastHasNone(s[1..]);
    }
  }

  lemma {:induction false} NothingAfterLast(s: string)
    requires AfterLast(s) == "" && s != ""
    ensures s[|s| - 1] == '_'
  {
    if s[1..] != "" {
      NothingAfterLast(s[1..]);
    }
  }

  lemma LowerKeepsUnderscore(s: string)
    ensures '_' in Lower(s) <==> '_' in s
  {
    if '_' in s {
      var i :| 0 <= i < |s| && s[i] == '_';
      assert Lower(s)[i] == '_';
    }
  }

  /** A match is a match of the last six characters: the test for the whole id adds nothing. */
  lemma MatchesIff(d: Discovered, id: string)
    ensures Matches(d, id) <==> NormalizeId(id) != "" && Last6(NormalizeId(id)) == ShortId(d)
  {
  }

  lemma MergeKeepsKey(prev: Discovered, d: Discovered)
    requires KeyOf(prev) == KeyOf(d)
    ensures KeyOf(Merge(prev, d)) == KeyOf(d)
  {
  }

  /** Dropping a character drops it everywhere, and nothing else. */
  lemma {:induction false} DroppingConcat(a: string, b: string, c: char)
    ensures Dropping(a + b, c) == Dropping(a, c) + Dropping(b, c)
  {
    if a == "" {
      Unit(b);
      Unit(Dropping(b, c));
    } else {
      assert (a + b)[1..] == a[1..] + b;
      DroppingConcat(a[1..], b, c);
      Assoc(if a[0] == c then "" else [a[0]], Dropping(a[1..], c), Dropping(b, c));
    }
  }

  lemma DroppingOne(d: char, c: char)
    ensures Dropping([d], c) == if d == c then "" else [d]
  {
    assert [d][1..] == "";
  }

  lemma {:induction false} DroppingHasNone(s: string, c: char)
    ensures c !in Dropping(s, c)
    ensures forall d <- Dropping(s, c) :: d in s
  {
    if s != "" {
      DroppingHasNone(s[1..], c);
      assert s == [s[0]] + s[1..];
    }
  }

  lemma {:induction false} DroppingNothing(s: string, c: char)
    requires c !in s
    ensures Dropping(s, c) == s
  {
    if s != "" {
      DroppingNothing(s[1..], c);
      assert s == [s[0]] + s[1..];
    }
  }

  predicate IsHex(c: char) {
    '0' <= c <= '9' || 'a' <= c <= 'f' || 'A' <= c <= 'F'
  }

  predicate HexDigits(s: string) {
    forall c <- s :: IsHex(c)
  }

  /** The pieces with a character between each two. */
  function Between(pieces: seq<string>, c: char): string {
    if pieces == [] then "" else if |pieces| == 1 then pieces[0] else pieces[0] + ([c] + Between(pieces[1..], c))
  }

  lemma {:induction false} BetweenHas(pieces: seq<string>, c: char, d: char)
    requires (forall p <- pieces :: HexDigits(p)) && d in Between(pieces, c)
    ensures IsHex(d) || d == c
  {
    assert pieces[0] in pieces;
    if |pieces| > 1 && d in Between(pieces[1..], c) {
      BetweenHas(pieces[1..], c, d);
    }
  }

  lemma {:induction false} FlattenIsHex(pieces: seq<string>)
    requires forall p <- pieces :: HexDigits(p)
    ensures HexDigits(Flatten(pieces))
  {
    if pieces != [] {
      FlattenIsHex(pieces[1..]);
      assert pieces[0] in pieces;
    }
  }

  lemma {:induction false} DroppingBetween(pieces: seq<string>, c: char)
    requires (c == ':' || c == '-') && forall p <- pieces :: HexDigits(p)
    ensures Dropping(Between(pieces, c), c) == Flatten(pieces)
    decreases |pieces|
  {
    if pieces != [] {
      assert pieces[0] in pieces;
      assert c !in pieces[0] by {
        assert !IsHex(c);
      }
      DroppingNothing(pieces[0], c);
      DroppingBetween(pieces[1..], c);
      if |pieces| == 1 {
        Unit(pieces[0]);
      } else {
        DroppingOneBetween(pieces[0], Between(pieces[1..], c), c);
      }
    }
  }

  lemma DroppingOneBetween(s: string, rest: string, c: char)
    ensures Dropping(s + ([c] + rest), c) == Dropping(s, c) + Dropping(rest, c)
  {
    DroppingConcat(s, [c] + rest, c);
    DroppingConcat([c], rest, c);
    DroppingOne(c, c);
    Unit(Dropping(rest, c));
  }

  lemma HexIsNotBlank(s: string)
    requires HexDigits(s)
    ensures Trim(s) == s && Dropping(s, ':') == s && Dropping(s, '-') == s
  {
    assert !IsHex(':') && !IsHex('-');
    DroppingNothing(s, ':');
    DroppingNothing(s, '-');
    HexIsStripped("", s, "");
    Unit(s);
  }

  lemma HexIsStripped(before: string, s: string, after: string)
    requires HexDigits(s) && (forall c <- before :: c == ' ') && (forall c <- after :: c == ' ')
    ensures Trim(before + (s + after)) == s
  {
    assert forall c :: IsHex(c) ==> !IsBlank(c);
    if s != "" {
      assert s[0] in s && s[|s| - 1] in s;
    }
    StripIff(before + (s + after), IsBlank, before, s, after);
  }

  /** Bytes in hexadecimal, in whatever case, with colons between them, or dashes, or nothing, are
      one id: their digits in small letters. */
  lemma NormalizedHex(pieces: seq<string>, c: char)
    requires (c == ':' || c == '-') && forall p <- pieces :: HexDigits(p)
    ensures NormalizeId(Between(pieces, c)) == NormalizeId(Flatten(pieces)) == Lower(Flatten(pieces))
  {
    var s := Between(pieces, c);
    DroppingBetween(pieces, c);
    FlattenIsHex(pieces);
    HexIsNotBlank(Flatten(pieces));
    if c == '-' {
      if ':' in s {
        BetweenHas(pieces, c, ':');
      }
      DroppingNothing(s, ':');
    }
  }

  /** White space around an id does not matter. */
  lemma NormalizedWithBlanks(before: string, s: string, after: string)
    requires (forall c <- before :: c == ' ') && (forall c <- after :: c == ' ') && HexDigits(s)
    ensures NormalizeId(before + (s + after)) == Lower(s)
  {
    var all := before + (s + after);
    assert !IsHex(':') && !IsHex('-');
    DroppingNothing(all, ':');
    DroppingNothing(all, '-');
    HexIsStripped(before, s, after);
  }

  /** The last six characters, or all there are. */
  lemma {:induction false} Last6Is(before: string, last: string)
    requires |last| <= 6 && (before != "" ==> |last| == 6)
    ensures Last6(before + last) == last
    decreases |before|
  {
    if before == "" {
      Unit(last);
    } else {
      assert (before + last)[1..] == before[1..] + last;
      if |before| == 1 {
        Unit(last);
      } else {
        Last6Is(before[1..], last);
      }
    }
  }

  /** What follows the last underscore. */
  lemma {:induction false} AfterLastIs(before: string, last: string)
    requires '_' !in last
    ensures AfterLast(last) == last && AfterLast(before + "_" + last) == last
    decreases |before|
  {
    var s := before + "_" + last;
    assert '_' in s by {
      assert s[|before|] == '_';
    }
    if before == "" {
      assert s[1..] == last;
    } else {
      assert s[1..] == before[1..] + "_" + last;
      AfterLastIs(before[1..], last);
    }
  }

  /** So an id is matched by its last six digits, however it is written: by the end of the
      cooler's own id, or what follows the underscore in its name. */
  lemma WrittenIdMatches(d: Discovered, pieces: seq<string>, c: char, before: string, last: string)
    requires (c == ':' || c == '-') && (forall p <- pieces :: HexDigits(p)) && |last| == 6
    requires Lower(Flatten(pieces)) == before + last
    ensures Matches(d, Between(pieces, c)) <==> ShortId(d) == last
  {
    NormalizedHex(pieces, c);
    Last6Is(before, last);
    MatchesIff(d, Between(pieces, c));
  }

  /** The short id of a hit. */
  lemma ShortIdIs(d: Discovered, before: string, last: string)
    ensures |last| == 6 && d.coolerId == before + last ==> ShortId(d) == last
    ensures '_' !in last && d.coolerId == "" && d.name == before + "_" + last ==> ShortId(d) == Lower(last)
    ensures '_' !in last && d.coolerId == "" && d.name == last ==> ShortId(d) == Lower(last)
  {
    if |last| == 6 {
      Last6Is(before, last);
    }
    if '_' !in last {
      AfterLastIs(before, last);
    }
  }

  /** The key of a hit is its short id, or else its name, marked as such. */
  lemma KeyIs(d: Discovered)
    ensures ShortId(d) != "" ==> KeyOf(d) == ShortId(d)
    ensures ShortId(d) == "" ==> KeyOf(d) == ['n', 'a', 'm', 'e', ':'] + Lower(d.name)
  {
  }

  /** Merging two hits under one key keeps the short id of either. */
  lemma MergeKeepsShortId(prev: Discovered, d: Discovered)
    requires KeyOf(prev) == KeyOf(d)
    ensures ShortId(d) != "" ==> ShortId(Merge(prev, d)) == ShortId(d)
    ensures ShortId(prev) != "" ==> ShortId(Merge(prev, d)) == ShortId(prev)
  {
    var merged := Merge(prev, d);
    MergeKeepsKey(prev, d);
    if ShortId(merged) == "" && ShortId(d) != "" {
      AfterLastHasNone(d.name);
      LowerKeepsUnderscore(AfterLast(d.name));
      NothingAfterLast(merged.name);
      LowerKeepsUnderscore(merged.name);
    }
  }

  /** Every entry is stored under its own key. */
  lemma {:induction false} EntriesKeepTheirKeys(hits: seq<Discovered>)
    ensures forall key <- RememberAll(hits) :: KeyOf(RememberAll(hits)[key]) == key
  {
    if hits != [] {
      var before, d := RememberAll(hits[..|hits| - 1]), hits[|hits| - 1];
      EntriesKeepTheirKeys(hits[..|hits| - 1]);
      if KeyOf(d) in before {
        MergeKeepsKey(before[KeyOf(d)], d);
      }
    }
  }

  // ---- what the entry of a key holds

  datatype Field = CoolerId | Name | Hostname | Ip | Port | Firmware | Sku | Inst

  datatype FieldValue = Text(text: Option<string>) | Number(n: nat)

  function Get(d: Discovered, f: Field): FieldValue {
    match f
    case CoolerId => FieldValue.Text(Some(d.coolerId))
    case Name => FieldValue.Text(Some(d.name))
    case Hostname => FieldValue.Text(d.hostname)
    case Ip => FieldValue.Text(d.ip)
    case Port => Number(d.port)
    case Firmware => FieldValue.Text(d.firmware)
    case Sku => FieldValue.Text(d.sku)
    case Inst => FieldValue.Text(d.inst)
  }

  predicate Empty(v: FieldValue) {
    match v
    case Text(t) => t == None || t == Some("")
    case Number(n) => n == 0
  }

  /** Hit `i` is the first with this key whose field is not empty. */
  ghost predicate FirstAt(hits: seq<Discovered>, key: string, f: Field, i: int) {
    && 0 <= i < |hits| && KeyOf(hits[i]) == key && !Empty(Get(hits[i], f))
    && forall j :: 0 <= j < i && KeyOf(hits[j]) == key ==> Empty(Get(hits[j], f))
  }

  ghost predicate AllEmpty(hits: seq<Discovered>, key: string, f: Field) {
    forall j :: 0 <= j < |hits| && KeyOf(hits[j]) == key ==> Empty(Get(hits[j], f))
  }

  /** The value of the first hit with this key that has one; an empty value if none has. */
  ghost predicate IsFirst(hits: seq<Discovered>, key: string, f: Field, value: FieldValue) {
    if AllEmpty(hits, key, f) then Empty(value)
    else exists i :: FirstAt(hits, key, f, i) && Get(hits[i], f) == value
  }

  lemma FirstOfMore(hits: seq<Discovered>, d: Discovered, key: string, f: Field, before: FieldValue, after: FieldValue)
    requires IsFirst(hits, key, f, before)
    requires after == if KeyOf(d) == key && Empty(before) then Get(d, f) else before
    ensures IsFirst(hits + [d], key, f, after)
  {
    AllEmptyOfMore(hits, d, key, f);
    if AllEmpty(hits, key, f) {
      if KeyOf(d) == key && !Empty(Get(d, f)) {
        assert (hits + [d])[|hits|] == d;
        assert FirstAt(hits + [d], key, f, |hits|);
      }
    } else {
      var i :| FirstAt(hits, key, f, i) && Get(hits[i], f) == before;
      FirstStaysFirst(hits, d, key, f, i);
    }
  }

  lemma AllEmptyOfMore(hits: seq<Discovered>, d: Discovered, key: string, f: Field)
    ensures AllEmpty(hits + [d], key, f) <==> AllEmpty(hits, key, f) && (KeyOf(d) == key ==> Empty(Get(d, f)))
  {
    var more := hits + [d];
    assert more[|hits|] == d;
    if AllEmpty(more, key, f) {
      forall j | 0 <= j < |hits| && KeyOf(hits[j]) == key ensures Empty(Get(hits[j], f)) {
        assert more[j] == hits[j];
      }
    }
  }

  lemma FirstStaysFirst(hits: seq<Discovered>, d: Discovered, key: string, f: Field, i: int)
    requires FirstAt(hits, key, f, i)
    ensures FirstAt(hits + [d], key, f, i) && (hits + [d])[i] == hits[i]
  {
    assert (hits + [d])[i] == hits[i];
  }

  lemma FirstOfOne(hits: seq<Discovered>, d: Discovered, f: Field)
    requires forall j :: 0 <= j < |hits| ==> KeyOf(hits[j]) != KeyOf(d)
    ensures IsFirst(hits + [d], KeyOf(d), f, Get(d, f))
  {
    var more := hits + [d];
    assert more[|hits|] == d;
    if !AllEmpty(more, KeyOf(d), f) {
      assert FirstAt(more, KeyOf(d), f, |hits|);
    }
  }

  lemma GetOfMerge(prev: Discovered, d: Discovered, f: Field)
    ensures Get(Merge(prev, d), f) == if Empty(Get(prev, f)) then Get(d, f) else Get(prev, f)
  {
  }

  ghost predicate HasSource(hits: seq<Discovered>, key: string, source: string) {
    exists i :: 0 <= i < |hits| && KeyOf(hits[i]) == key && source in hits[i].sources
  }

  ghost predicate Summarises(e: Discovered, hits: seq<Discovered>, key: string) {
    && (forall f: Field :: IsFirst(hits, key, f, Get(e, f)))
    && (forall source :: source in e.sources <==> HasSource(hits, key, source))
  }

  lemma SummaryOfOne(hits: seq<Discovered>, d: Discovered)
    requires forall j :: 0 <= j < |hits| ==> KeyOf(hits[j]) != KeyOf(d)
    ensures Summarises(d, hits + [d], KeyOf(d))
  {
    var more := hits + [d];
    forall f: Field ensures IsFirst(more, KeyOf(d), f, Get(d, f)) {
      FirstOfOne(hits, d, f);
    }
    assert more[|hits|] == d;
    forall source ensures source in d.sources <==> HasSource(more, KeyOf(d), source) {
    }
  }

  lemma SummaryOfMore(e: Discovered, hits: seq<Discovered>, d: Discovered, key: string)
    requires Summarises(e, hits, key)
    ensures Summarises(if KeyOf(d) == key then Merge(e, d) else e, hits + [d], key)
  {
    var after := if KeyOf(d) == key then Merge(e, d) else e;
    forall f: Field ensures IsFirst(hits + [d], key, f, Get(after, f)) {
      GetOfMerge(e, d, f);
      FirstOfMore(hits, d, key, f, Get(e, f), Get(after, f));
    }
    forall source ensures source in after.sources <==> HasSource(hits + [d], key, source) {
      SourceOfMore(hits, d, key, source);
    }
  }

  lemma SourceOfMore(hits: seq<Discovered>, d: Discovered, key: string, source: string)
    ensures HasSource(hits + [d], key, source) <==>
            HasSource(hits, key, source) || (KeyOf(d) == key && source in d.sources)
  {
    var more := hits + [d];
    if i :| 0 <= i < |hits| && KeyOf(hits[i]) == key && source in hits[i].sources {
      assert KeyOf(more[i]) == key && source in more[i].sources;
    }
    if KeyOf(d) == key && source in d.sources {
      assert KeyOf(more[|hits|]) == key && source in more[|hits|].sources;
    }
  }

  /** There is one entry for each key among the hits, and it holds, field by field, the first
      value that is not empty among the hits of that key, in the order they came, and all
      their sources. */
  lemma {:induction false} EntriesSummariseHits(hits: seq<Discovered>)
    ensures forall key :: key in RememberAll(hits) <==> exists i :: 0 <= i < |hits| && KeyOf(hits[i]) == key
    ensures forall key <- RememberAll(hits) :: Summarises(RememberAll(hits)[key], hits, key)
  {
    if hits != [] {
      var earlier, d := hits[..|hits| - 1], hits[|hits| - 1];
      var before := RememberAll(earlier);
      EntriesSummariseHits(earlier);
      assert hits == earlier + [d];
      forall key ensures key in RememberAll(hits) <==> exists i :: 0 <= i < |hits| && KeyOf(hits[i]) == key {
        if i :| 0 <= i < |earlier| && KeyOf(earlier[i]) == key {
          assert KeyOf(hits[i]) == key;
        }
        assert KeyOf(hits[|hits| - 1]) == KeyOf(d);
      }
      forall key <- RememberAll(hits) ensures Summarises(RememberAll(hits)[key], hits, key) {
        if key in before {
          SummaryOfMore(before[key], earlier, d, key);
        } else {
          SummaryOfOne(earlier, d);
        }
      }
    }
  }

  // ---- merging hides no cooler

  /** Whatever id a hit matches, the entry under its key matches. */
  lemma {:induction false} NoMatchIsLost(hits: seq<Discovered>, i: nat)
    requires i < |hits| && ShortId(hits[i]) != ""
    ensures KeyOf(hits[i]) in RememberAll(hits) && ShortId(RememberAll(hits)[KeyOf(hits[i])]) == ShortId(hits[i])
    decreases |hits|
  {
    var earlier, d := hits[..|hits| - 1], hits[|hits| - 1];
    var before, key := RememberAll(earlier), KeyOf(hits[i]);
    EntriesKeepTheirKeys(earlier);
    if i < |hits| - 1 {
      NoMatchIsLost(earlier, i);
    }
    if KeyOf(d) == key && key in before {
      MergeKeepsShortId(before[key], d);
    }
  }

  /** `entries` lists the values of `found`, in some order. */
  ghost predicate Lists(entries: seq<Discovered>, found: map<string, Discovered>) {
    && (forall i :: 0 <= i < |entries| ==> KeyOf(entries[i]) in found && found[KeyOf(entries[i])] == entries[i])
    && (forall key <- found :: found[key] in entries)
  }

  /** `find_cooler` finds an entry exactly when some single hit matches the id, and then the one
      entry that merges all hits with the last six characters of the id, in whatever order the
      entries are listed. */
  lemma {:induction false} CoolerIsFoundIff(hits: seq<Discovered>, entries: seq<Discovered>, id: string,
                                            r: Option<Discovered>)
    requires Lists(entries, RememberAll(hits))
    requires r.None? ==> forall i :: 0 <= i < |entries| ==> !Matches(entries[i], id)
    requires r.Some? ==> r.value in entries && Matches(r.value, id)
    ensures r.Some? <==> exists i :: 0 <= i < |hits| && Matches(hits[i], id)
    ensures r.Some? ==> var key := Last6(NormalizeId(id)); key in RememberAll(hits) && r.value == RememberAll(hits)[key]
  {
    EntriesKeepTheirKeys(hits);
    if i :| 0 <= i < |hits| && Matches(hits[i], id) {
      MatchedHitHasEntry(hits, i, id);
      assert RememberAll(hits)[KeyOf(hits[i])] in entries;
    }
    if r.Some? {
      MatchComesFromAHit(hits, id);
    }
  }

  lemma {:induction false} MatchedHitHasEntry(hits: seq<Discovered>, i: nat, id: string)
    requires i < |hits| && Matches(hits[i], id)
    ensures KeyOf(hits[i]) in RememberAll(hits) && Matches(RememberAll(hits)[KeyOf(hits[i])], id)
  {
    MatchesIff(hits[i], id);
    NoMatchIsLost(hits, i);
    MatchesIff(RememberAll(hits)[KeyOf(hits[i])], id);
  }

  lemma {:induction false} MatchComesFromAHit(hits: seq<Discovered>, id: string)
    ensures forall key <- RememberAll(hits) :: Matches(RememberAll(hits)[key], id) ==>
              exists i :: 0 <= i < |hits| && Matches(hits[i], id)
  {
    if hits != [] {
      var earlier, d := hits[..|hits| - 1], hits[|hits| - 1];
      MatchComesFromAHit(earlier, id);
      if i :| 0 <= i < |earlier| && Matches(earlier[i], id) {
        assert Matches(hits[i], id);
      }
      if KeyOf(d) in RememberAll(earlier) {
        ShortIdOfMerge(RememberAll(earlier)[KeyOf(d)], d);
      }
    }
  }

  lemma ShortIdOfMerge(prev: Discovered, d: Discovered)
    ensures ShortId(Merge(prev, d)) in {ShortId(prev), ShortId(d)}
  {
  }
}
