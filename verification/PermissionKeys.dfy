/** Cache keys of the permission engine: which users they tell apart, and which share one. */
module PermissionKeys {
  import opened Permissions

  function ActionName(a: Action): string {
    match a case Create => "create" case Read => "read" case Update => "update" case Delete => "delete"
  }

  function CacheKey(userId: string, objectName: string, action: Action): string {
    userId + (":" + (objectName + (":" + ActionName(action))))
  }

  // ---------- keys ----------

  lemma {:induction false} FirstColon(a: string, rest: string, b: string, rest': string)
    requires ':' !in a && ':' !in b && a + (":" + rest) == b + (":" + rest')
    ensures a == b && rest == rest'
  {
    var (s, s') := (a + (":" + rest), b + (":" + rest'));
    if a == [] || b == [] {
      assert a == [] ==> s[0] == ':';
      assert b == [] ==> s'[0] == ':';
      assert s[1..] == rest || a != [];
      assert s'[1..] == rest' || b != [];
    } else {
      assert s[0] == a[0] && s'[0] == b[0];
      assert s[1..] == a[1..] + (":" + rest) && s'[1..] == b[1..] + (":" + rest');
      FirstColon(a[1..], rest, b[1..], rest');
      assert a == [a[0]] + a[1..] && b == [b[0]] + b[1..];
    }
  }

  lemma LastColonText(a: string, x: string, b: string, y: string)
    requires ':' !in x && ':' !in y && a + (":" + x) == b + (":" + y)
    ensures a == b && x == y
  {
    var (s, t) := (a + (":" + x), b + (":" + y));
    assert s[|a|] == ':' && t[|b|] == ':';
    if |a| > |b| {
      assert false;
    } else if |b| > |a| {
      assert false;
    } else {
      assert a == s[..|a|] && b == t[..|b|];
      assert x == s[|a| + 1..] && y == t[|b| + 1..];
    }
  }

  /** The end of a key tells the four actions apart. */
  lemma LastColon(a: string, x: Action, b: string, y: Action)
    requires a + (":" + ActionName(x)) == b + (":" + ActionName(y))
    ensures a == b && x == y
  {
    assert ':' !in ActionName(x) && ':' !in ActionName(y);
    ActionNamesDiffer(x, y);
    hide ActionName;
    LastColonText(a, ActionName(x), b, ActionName(y));
  }

  lemma ActionNamesDiffer(x: Action, y: Action)
    ensures ActionName(x) == ActionName(y) ==> x == y
  {
    assert "create"[0] != "read"[0] && "create"[0] != "update"[0] && "create"[0] != "delete"[0];
    assert "read"[0] != "update"[0] && "read"[0] != "delete"[0] && "update"[0] != "delete"[0];
  }

  /** User ids without a colon make keys unambiguous, whatever the object names hold. */
  lemma KeysAreDistinct(u: string, o: string, a: Action, u': string, o': string, a': Action)
    requires ':' !in u && ':' !in u' && CacheKey(u, o, a) == CacheKey(u', o', a')
    ensures u == u' && o == o' && a == a'
  {
    hide ActionName;
    FirstColon(u, o + (":" + ActionName(a)), u', o' + (":" + ActionName(a')));
    LastColon(o, a, o', a');
  }

  lemma LongerSharesPrefix(u: string, rest: string, v: string, rest': string)
    requires u + (":" + rest) == v + (":" + rest') && |u| < |v|
    ensures u + ":" <= v
  {
    var s := u + (":" + rest);
    assert s[..|u| + 1] == u + ":" && s[..|v|] == v;
    assert v[..|u| + 1] == s[..|v|][..|u| + 1] == s[..|u| + 1];
  }

  lemma SameLengthSame(u: string, rest: string, v: string, rest': string)
    requires u + (":" + rest) == v + (":" + rest') && |u| == |v|
    ensures u == v
  {
    assert u == (u + (":" + rest))[..|u|] && v == (v + (":" + rest'))[..|v|];
  }

  lemma PrefixShares(u: string, v: string, objectName: string, action: Action)
    requires u + ":" <= v
    ensures CacheKey(v, objectName, action) == CacheKey(u, v[|u| + 1..] + (":" + objectName), action)
  {
    hide ActionName;
    var tail := ":" + ActionName(action);
    assert v == (u + ":") + v[|u| + 1..];
    assert CacheKey(v, objectName, action) == v + (":" + (objectName + tail));
    assert CacheKey(u, v[|u| + 1..] + (":" + objectName), action)
        == (u + ":") + v[|u| + 1..] + (":" + (objectName + tail));
  }

  /** Whether two users can have a key in common. */
  ghost predicate ShareKey(u: string, v: string) {
    exists o: string, a: Action, o': string, a': Action :: CacheKey(u, o, a) == CacheKey(v, o', a')
  }

  /** Two users share a key exactly when one id continues the other behind a colon. */
  lemma SharedKeyIff(u: string, v: string)
    requires u != v
    ensures ShareKey(u, v) <==> u + ":" <= v || v + ":" <= u
  {
    if ShareKey(u, v) {
      var o, a, o', a' :| CacheKey(u, o, a) == CacheKey(v, o', a');
      hide ActionName;
      var (rest, rest') := (o + (":" + ActionName(a)), o' + (":" + ActionName(a')));
      if |u| == |v| {
        SameLengthSame(u, rest, v, rest');
      } else if |u| < |v| {
        LongerSharesPrefix(u, rest, v, rest');
      } else {
        LongerSharesPrefix(v, rest', u, rest);
      }
    } else if u + ":" <= v {
      PrefixShares(u, v, "", Read);
    } else if v + ":" <= u {
      PrefixShares(v, u, "", Read);
    }
  }

  /** `key.startsWith(userId + ':')` */
  predicate OfUser(key: string, userId: string) { userId + ":" <= key }

  lemma PrefixIsUser(u: string, o: string, a: Action, user: string)
    requires ':' !in u && ':' !in user
    ensures OfUser(CacheKey(u, o, a), user) <==> u == user
  {
    hide ActionName;
    var key := CacheKey(u, o, a);
    if u == user { assert key == (user + ":") + (o + (":" + ActionName(a))); }
    if OfUser(key, user) {
      var rest := key[|user| + 1..];
      assert key == user + (":" + rest);
      FirstColon(u, o + (":" + ActionName(a)), user, rest);
    }
  }
}
