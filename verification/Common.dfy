/** Bytes, and the option and result types that every component shares. */
module Common {
  type byte = b: int | 0 <= b < 256
  type Bytes = seq<byte>

  datatype Option<+T> = None | Some(value: T)

  datatype Result<+T, +E> = Ok(value: T) | Err(error: E)

  /** The concatenation of a sequence of chunks. */
  function Flatten<T>(chunks: seq<seq<T>>): seq<T> {
    if chunks == [] then [] else chunks[0] + Flatten(chunks[1..])
  }

  function Times<T>(n: nat, x: T): seq<T> {
    if n == 0 then [] else [x] + Times(n - 1, x)
  }

  lemma {:induction false} TimesAre<T>(n: nat, x: T)
    ensures |Times(n, x)| == n && forall y <- Times(n, x) :: y == x
  {
    if n > 0 {
      TimesAre(n - 1, x);
    }
  }

  function StripLeft<T>(s: seq<T>, blank: T -> bool): seq<T> {
    if s != [] && blank(s[0]) then StripLeft(s[1..], blank) else s
  }

  function StripRight<T>(s: seq<T>, blank: T -> bool): seq<T> {
    if s != [] && blank(s[|s| - 1]) then StripRight(s[..|s| - 1], blank) else s
  }

  /** `s` without the blanks at its ends. */
  function Strip<T>(s: seq<T>, blank: T -> bool): seq<T> {
    StripRight(StripLeft(s, blank), blank)
  }

  /** Stripping takes the blanks off both ends and nothing else; `middle` is what is left. */
  lemma StripIff<T>(s: seq<T>, blank: T -> bool, before: seq<T>, middle: seq<T>, after: seq<T>)
    requires s == before + (middle + after)
    requires (forall c <- before :: blank(c)) && (forall c <- after :: blank(c))
    requires middle != [] ==> !blank(middle[0]) && !blank(middle[|middle| - 1])
    ensures Strip(s, blank) == middle
  {
    StripLeftOf(before, middle + after, blank);
    if middle == [] {
      Unit(after);
      StripLeftOf(after, [], blank);
      Unit(before);
      Unit(after);
    } else {
      assert (middle + after)[0] == middle[0];
      StripRightOf(middle, after, blank);
    }
  }

  lemma {:induction false} StripLeftOf<T>(before: seq<T>, s: seq<T>, blank: T -> bool)
    requires forall c <- before :: blank(c)
    ensures StripLeft(before + s, blank) == StripLeft(s, blank)
  {
    if before == [] {
      Unit(s);
    } else {
      assert (before + s)[1..] == before[1..] + s;
      StripLeftOf(before[1..], s, blank);
    }
  }

  lemma {:induction false} StripRightOf<T>(s: seq<T>, after: seq<T>, blank: T -> bool)
    requires (forall c <- after :: blank(c)) && s != [] && !blank(s[|s| - 1])
    ensures StripRight(s + after, blank) == s
    decreases |after|
  {
    if after == [] {
      Unit(s);
    } else {
      assert (s + after)[..|s + after| - 1] == s + after[..|after| - 1];
      StripRightOf(s, after[..|after| - 1], blank);
    }
  }

  lemma Assoc<T>(a: seq<T>, b: seq<T>, c: seq<T>)
    ensures (a + b) + c == a + (b + c)
  {
  }

  lemma Unit<T>(s: seq<T>)
    ensures [] + s == s && s + [] == s
  {
  }
}
