/** Regular expressions as far as the repository uses them, and which texts they match as a whole. */
module Patterns {
  type Class = char -> bool

  datatype Pattern = One(of: Class) | Many(of: Class) | Then(first: Pattern, rest: Pattern) | Maybe(what: Pattern)

  ghost predicate Matches(p: Pattern, s: string) {
    match p
    case One(of) => |s| == 1 && of(s[0])
    case Many(of) => forall i :: 0 <= i < |s| ==> of(s[i])
    case Then(first, rest) => exists i :: 0 <= i <= |s| && Matches(first, s[..i]) && Matches(rest, s[i..])
    case Maybe(what) => s == "" || Matches(what, s)
  }

  function Plus(of: Class): Pattern { Then(One(of), Many(of)) }

  ghost predicate AllOf(of: Class, s: string) { forall i :: 0 <= i < |s| ==> of(s[i]) }

  lemma PlusIs(of: Class, s: string)
    ensures Matches(Plus(of), s) <==> s != "" && AllOf(of, s)
  {
    if Matches(Plus(of), s) {
      var i :| 0 <= i <= |s| && Matches(One(of), s[..i]) && Matches(Many(of), s[i..]);
      assert forall k :: 1 <= k < |s| ==> s[k] == s[1..][k - 1];
    }
    if s != "" && AllOf(of, s) {
      assert Matches(One(of), s[..1]) && Matches(Many(of), s[1..]);
    }
  }

  /** The first `n` characters are of the class, and the next is not. */
  ghost predicate RunsFor(of: Class, s: string, n: nat) {
    n <= |s| && AllOf(of, s[..n]) && (n < |s| ==> !of(s[n]))
  }

  /** The pattern matches the empty text or texts that start with a character outside the class. */
  ghost predicate StartsOutside(p: Pattern, of: Class) { forall s :: Matches(p, s) && s != "" ==> !of(s[0]) }

  /** Where the rest starts outside the class, only the longest run of the class will do. */
  lemma RunThen(of: Class, p: Pattern, s: string, n: nat)
    requires StartsOutside(p, of) && RunsFor(of, s, n)
    ensures Matches(Then(Many(of), p), s) <==> Matches(p, s[n..])
    ensures Matches(Then(Plus(of), p), s) <==> n > 0 && Matches(p, s[n..])
  {
    hide StartsOutside;
    if Matches(p, s[n..]) { assert Matches(Many(of), s[..n]); }
    if Matches(p, s[n..]) && n > 0 {
      PlusIs(of, s[..n]);
      assert Matches(Plus(of), s[..n]);
    }
    if Matches(Then(Many(of), p), s) {
      var i :| 0 <= i <= |s| && Matches(Many(of), s[..i]) && Matches(p, s[i..]);
      RunEnds(of, p, s, n, i);
    }
    if Matches(Then(Plus(of), p), s) {
      var i :| 0 <= i <= |s| && Matches(Plus(of), s[..i]) && Matches(p, s[i..]);
      PlusIs(of, s[..i]);
      RunEnds(of, p, s, n, i);
    }
  }

  lemma RunEnds(of: Class, p: Pattern, s: string, n: nat, i: nat)
    requires StartsOutside(p, of) && RunsFor(of, s, n) && i <= |s| && AllOf(of, s[..i]) && Matches(p, s[i..])
    ensures i == n
  {
    forall k | 0 <= k < n ensures of(s[k]) { assert s[..n][k] == s[k]; }
    forall k | 0 <= k < i ensures of(s[k]) { assert s[..i][k] == s[k]; }
    if i < |s| { assert s[i..][0] == s[i]; }
  }

  /** The run over a text of the class ends where something else follows. */
  lemma RunStops(of: Class, s: string, t: string, n: nat)
    requires AllOf(of, s) && (t != "" ==> !of(t[0])) && RunsFor(of, s + t, n)
    ensures n == |s|
  {
    var all := s + t;
    forall k | 0 <= k < n ensures of(all[k]) { assert all[..n][k] == all[k]; }
    assert forall k :: 0 <= k < |s| ==> all[k] == s[k];
    if t != "" { assert all[|s|] == t[0]; }
  }

  lemma OneThen(of: Class, p: Pattern, s: string)
    ensures Matches(Then(One(of), p), s) <==> s != "" && of(s[0]) && Matches(p, s[1..])
  {
    if Matches(Then(One(of), p), s) {
      var i :| 0 <= i <= |s| && Matches(One(of), s[..i]) && Matches(p, s[i..]);
    }
    if s != "" && of(s[0]) && Matches(p, s[1..]) {
      assert Matches(One(of), s[..1]);
    }
  }

  /** A run of one class and one character behind it. */
  lemma ManyThenOne(of: Class, last: Class, s: string)
    ensures Matches(Then(Many(of), One(last)), s) <==> s != "" && AllOf(of, s[..|s| - 1]) && last(s[|s| - 1])
  {
    if Matches(Then(Many(of), One(last)), s) {
      var i :| 0 <= i <= |s| && Matches(Many(of), s[..i]) && Matches(One(last), s[i..]);
      assert i == |s| - 1;
    }
    if s != "" && AllOf(of, s[..|s| - 1]) && last(s[|s| - 1]) {
      assert Matches(Many(of), s[..|s| - 1]) && Matches(One(last), s[|s| - 1..]);
    }
  }
}
