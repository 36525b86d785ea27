/**
 * `camel2dash` (js/main.js:289-291): `str.replace(/([a-z])([A-Z])/g, '$1-$2')`
 * followed by `toLowerCase()`, which turns a camelCase JavaScript name into the
 * dash-case HTML spelling.
 */
module CamelCase {
  import opened Strings

  /** A lower-case letter directly followed by an upper-case one: where the pattern matches. */
  predicate Boundary(a: char, b: char) { IsLower(a) && IsUpper(b) }

  /**
   * The global replace as the regular-expression engine performs it: scan
   * from the left; on a match of `[a-z][A-Z]` emit the two letters with `-`
   * between them and resume after the match; otherwise copy one character
   * and move on by one.
   *
   * Matches never overlap and none is missed: a match ends on an upper-case
   * letter, which cannot start the next one, so the replace inserts a dash
   * at every boundary of the input, as the reference reading does.
   */
  function ReplaceBoundaries(s: string): (r: string)
    ensures r == DashAtBoundaries(s)
  {
    if |s| < 2 then s
    else if Boundary(s[0], s[1]) then
      DashAtMatch(s);
      [s[0], '-', s[1]] + ReplaceBoundaries(s[2..])
    else [s[0]] + ReplaceBoundaries(s[1..])
  }

  /**
   * The reference reading of the same step: every character of `s` in order,
   * each followed by one `-` exactly when it and its successor form a boundary.
   */
  function DashAtBoundaries(s: string): string
  {
    if s == [] then []
    else [s[0]] + (if |s| > 1 && Boundary(s[0], s[1]) then "-" else "") + DashAtBoundaries(s[1..])
  }

  /** `toLowerCase()`, on the ASCII letters. */
  function LowerAscii(s: string): (r: string)
    ensures |r| == |s|
    ensures forall i | 0 <= i < |s| :: r[i] == LowerChar(s[i])
  {
    seq(|s|, i requires 0 <= i < |s| => LowerChar(s[i]))
  }

  /**
   * `camel2dash`: the input with one `-` inserted at each lower-to-upper
   * boundary, then lower-cased; |s| plus one character per boundary, and no
   * upper-case ASCII letter anywhere.
   */
  function Camel2Dash(s: string): (r: string)
    ensures r == LowerAscii(DashAtBoundaries(s))
    ensures |r| == |s| + BoundaryCount(s)
    ensures forall i | 0 <= i < |r| :: !IsUpper(r[i])
  {
    DashAtBoundariesLength(s);
    LowerAscii(ReplaceBoundaries(s))
  }

  /**
   * At a match the reference inserts one dash and none after the upper-case
   * letter, so it continues with the rest after the match.
   */
  lemma DashAtMatch(s: string)
    requires |s| >= 2 && Boundary(s[0], s[1])
    ensures DashAtBoundaries(s) == [s[0], '-', s[1]] + DashAtBoundaries(s[2..])
  {
    var t := s[1..];
    assert t[0] == s[1] && t[1..] == s[2..];
    assert !IsLower(t[0]);
    assert DashAtBoundaries(t) == [t[0]] + DashAtBoundaries(t[1..]);
    assert DashAtBoundaries(s) == [s[0]] + "-" + DashAtBoundaries(t);
  }

  /** The number of lower-to-upper boundaries in `s`. */
  function BoundaryCount(s: string): nat
  {
    if |s| < 2 then 0
    else (if Boundary(s[0], s[1]) then 1 else 0) + BoundaryCount(s[1..])
  }

  /** `s` with every `-` taken out. */
  function StripDashes(s: string): string
  {
    if s == [] then [] else (if s[0] == '-' then [] else [s[0]]) + StripDashes(s[1..])
  }

  lemma {:induction false} StripDashesAppend(a: string, b: string)
    ensures StripDashes(a + b) == StripDashes(a) + StripDashes(b)
  {
    if a != [] {
      assert (a + b)[1..] == a[1..] + b;
      StripDashesAppend(a[1..], b);
    } else {
      assert a + b == b;
    }
  }

  /** Inserting the dashes lengthens the string by exactly one character per boundary. */
  lemma {:induction false} DashAtBoundariesLength(s: string)
    ensures |DashAtBoundaries(s)| == |s| + BoundaryCount(s)
  {
    if s != [] {
      DashAtBoundariesLength(s[1..]);
    }
  }

  /**
   * No character other than the inserted dashes is added or dropped: taking
   * every dash out of the replacement gives back the input with its dashes
   * taken out.
   */
  lemma {:induction false} DashAtBoundariesOnlyAddsDashes(s: string)
    ensures StripDashes(DashAtBoundaries(s)) == StripDashes(s)
  {
    if s != [] {
      var mid := if |s| > 1 && Boundary(s[0], s[1]) then "-" else "";
      assert DashAtBoundaries(s) == [s[0]] + (mid + DashAtBoundaries(s[1..]));
      StripDashesAppend([s[0]], mid + DashAtBoundaries(s[1..]));
      StripDashesAppend(mid, DashAtBoundaries(s[1..]));
      assert StripDashes(mid) == [];
      DashAtBoundariesOnlyAddsDashes(s[1..]);
      assert s == [s[0]] + s[1..];
      StripDashesAppend([s[0]], s[1..]);
    }
  }

  /** Apart from the inserted dashes, `camel2dash` returns exactly the lower-cased input. */
  lemma Camel2DashOnlyAddsDashes(s: string)
    ensures StripDashes(Camel2Dash(s)) == StripDashes(LowerAscii(s))
  {
    DashAtBoundariesOnlyAddsDashes(s);
    LowerStripCommute(DashAtBoundaries(s));
    LowerStripCommute(s);
  }

  /** Lower-casing maps `-` to itself and nothing else to `-`, so it commutes with stripping dashes. */
  lemma {:induction false} LowerStripCommute(s: string)
    ensures StripDashes(LowerAscii(s)) == LowerAscii(StripDashes(s))
  {
    if s != [] {
      assert LowerAscii(s)[1..] == LowerAscii(s[1..]);
      LowerStripCommute(s[1..]);
    }
  }

  /** A string without upper-case letters has no boundary, so the replace leaves it alone. */
  lemma {:induction false} NoUpperNoBoundary(s: string)
    requires forall i | 0 <= i < |s| :: !IsUpper(s[i])
    ensures ReplaceBoundaries(s) == s
  {
    if |s| >= 2 {
      NoUpperNoBoundary(s[1..]);
    }
  }

  /** `camel2dash` is idempotent: dash-case input comes back unchanged. */
  lemma Camel2DashIdempotent(s: string)
    ensures Camel2Dash(Camel2Dash(s)) == Camel2Dash(s)
  {
    var t := Camel2Dash(s);
    NoUpperNoBoundary(t);
    assert LowerAscii(t) == t;
  }
}
