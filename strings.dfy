/**
 * The two PHP string functions the client relies on: `implode`, which
 * builds the comma-joined `models` parameter, and its inverse `explode`,
 * which the properties use to read a rendered value back.
 */
module Strings {

  /** The summed length of the pieces. */
  function TotalLength(pieces: seq<string>): nat
  {
    if pieces == [] then 0 else |pieces[0]| + TotalLength(pieces[1..])
  }

  /** PHP `implode(glue, pieces)`: the pieces in order, with glue between neighbours. */
  function Implode(glue: string, pieces: seq<string>): (r: string)
    ensures |pieces| == 0 ==> r == ""
    ensures |pieces| > 0 ==> pieces[0] <= r
    ensures |pieces| > 0 ==> |r| + |glue| == TotalLength(pieces) + |pieces| * |glue|
  {
    if |pieces| == 0 then ""
    else if |pieces| == 1 then pieces[0]
    else pieces[0] + glue + Implode(glue, pieces[1..])
  }

  /**
   * PHP `explode(sep, s)` for a one-character separator and no limit:
   * the maximal separator-free pieces of s, always at least one.
   */
  function Explode(sep: char, s: string): (parts: seq<string>)
    ensures |parts| >= 1
    ensures forall i :: 0 <= i < |parts| ==> sep !in parts[i]
    decreases |s|
  {
    if s == [] then [""]
    else
      var rest := Explode(sep, s[1..]);
      if s[0] == sep then [""] + rest
      else [[s[0]] + rest[0]] + rest[1..]
  }

  /** A string without the separator explodes to itself alone. */
  lemma {:induction false} ExplodeWithoutSeparator(sep: char, a: string)
    requires sep !in a
    ensures Explode(sep, a) == [a]
    decreases |a|
  {
    if a != [] {
      ExplodeWithoutSeparator(sep, a[1..]);
      assert [a[0]] + a[1..] == a;
    }
  }

  /** Exploding splits at the first separator. */
  lemma {:induction false} ExplodeAtFirstSeparator(sep: char, a: string, b: string)
    requires sep !in a
    ensures Explode(sep, a + [sep] + b) == [a] + Explode(sep, b)
    decreases |a|
  {
    var s := a + [sep] + b;
    if a == [] {
      assert s[1..] == b;
    } else {
      assert s[1..] == a[1..] + [sep] + b;
      ExplodeAtFirstSeparator(sep, a[1..], b);
      assert [a[0]] + a[1..] == a;
    }
  }

  /**
   * Round trip: joining separator-free pieces and exploding the result gives
   * the pieces back. The empty list is excluded because `implode` maps both
   * [] and [""] to "".
   */
  lemma {:induction false} ExplodeImplode(sep: char, pieces: seq<string>)
    requires |pieces| >= 1
    requires forall i :: 0 <= i < |pieces| ==> sep !in pieces[i]
    ensures Explode(sep, Implode([sep], pieces)) == pieces
    decreases |pieces|
  {
    if |pieces| == 1 {
      ExplodeWithoutSeparator(sep, pieces[0]);
    } else {
      ExplodeAtFirstSeparator(sep, pieces[0], Implode([sep], pieces[1..]));
      ExplodeImplode(sep, pieces[1..]);
      assert [pieces[0]] + pieces[1..] == pieces;
    }
  }

  /** Implode distributes over a character prepended to the first piece. */
  lemma ImplodeConsFirst(glue: string, c: char, x: string, ys: seq<string>)
    ensures Implode(glue, [[c] + x] + ys) == [c] + Implode(glue, [x] + ys)
  {
  }

  /** The other round trip: exploding then joining with the same separator is the identity. */
  lemma {:induction false} ImplodeExplode(sep: char, s: string)
    ensures Implode([sep], Explode(sep, s)) == s
    decreases |s|
  {
    if s != [] {
      var rest := Explode(sep, s[1..]);
      ImplodeExplode(sep, s[1..]);
      if s[0] == sep {
        var l := [""] + rest;
        assert l[1..] == rest;
      } else {
        ImplodeConsFirst([sep], s[0], rest[0], rest[1..]);
        assert [rest[0]] + rest[1..] == rest;
      }
      assert [s[0]] + s[1..] == s;
    }
  }
}
