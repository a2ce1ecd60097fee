/** What the array functions that filter a list and that collect its keys leave behind, said by
    places instead of by recursion. */
module Filters {

  /** `places` are, in order, the places of exactly those elements of `all` that are kept, and `some`
      lists these elements. */
  ghost predicate Selects<T>(all: seq<T>, some: seq<T>, keep: T -> bool, places: seq<nat>) {
    && |places| == |some|
    && (forall k | 0 <= k < |places| :: places[k] < |all| && some[k] == all[places[k]] && keep(some[k]))
    && (forall k, l | 0 <= k < l < |places| :: places[k] < places[l])
    && (forall i: nat | i < |all| && keep(all[i]) :: i in places)
  }

  ghost predicate IsFilter<T>(all: seq<T>, some: seq<T>, keep: T -> bool) {
    exists places :: Selects(all, some, keep, places)
  }

  lemma NothingKept<T>(all: seq<T>, keep: T -> bool)
    requires forall i | 0 <= i < |all| :: !keep(all[i])
    ensures IsFilter(all, [], keep)
  {
    assert Selects(all, [], keep, []);
  }

  lemma AllKept<T>(all: seq<T>, keep: T -> bool)
    requires forall i | 0 <= i < |all| :: keep(all[i])
    ensures IsFilter(all, all, keep)
  {
    var places := seq(|all|, i requires 0 <= i < |all| => i);
    forall i: nat | i < |all|
      ensures i in places
    {
      assert places[i] == i;
    }
    assert Selects(all, all, keep, places);
  }

  ghost predicate Shifted(q: seq<nat>, r: seq<nat>, n: nat) {
    |r| == |q| && forall k | 0 <= k < |q| :: r[k] == n + q[k]
  }

  lemma KeptBoth<T>(a: seq<T>, b: seq<T>, x: seq<T>, y: seq<T>, keep: T -> bool,
                    p: seq<nat>, q: seq<nat>, r: seq<nat>, i: nat)
    requires Selects(a, x, keep, p) && Selects(b, y, keep, q) && Shifted(q, r, |a|)
    requires i < |a + b| && keep((a + b)[i])
    ensures i in p + r
  {
    if i < |a| {
      assert i in p;
    } else {
      assert b[i - |a|] == (a + b)[i];
      var k :| 0 <= k < |q| && q[k] == i - |a|;
      assert r[k] == i;
    }
  }

  lemma PlacesBoth<T>(a: seq<T>, b: seq<T>, x: seq<T>, y: seq<T>, keep: T -> bool,
                      p: seq<nat>, q: seq<nat>, r: seq<nat>, k: nat)
    requires Selects(a, x, keep, p) && Selects(b, y, keep, q) && Shifted(q, r, |a|) && k < |p + r|
    ensures |p + r| == |x + y|
    ensures (p + r)[k] < |a + b| && (x + y)[k] == (a + b)[(p + r)[k]] && keep((x + y)[k])
    ensures forall l | k < l < |p + r| :: (p + r)[k] < (p + r)[l]
  {
  }

  lemma SelectsBoth<T>(a: seq<T>, b: seq<T>, x: seq<T>, y: seq<T>, keep: T -> bool,
                       p: seq<nat>, q: seq<nat>, r: seq<nat>)
    requires Selects(a, x, keep, p) && Selects(b, y, keep, q) && Shifted(q, r, |a|)
    ensures Selects(a + b, x + y, keep, p + r)
  {
    assert |p| == |x| && |q| == |y| && |r| == |q|;
    var all, some, places := a + b, x + y, p + r;
    forall i: nat | i < |all| && keep(all[i])
      ensures i in places
    {
      KeptBoth(a, b, x, y, keep, p, q, r, i);
    }
    hide Shifted;
    forall k: nat | k < |places|
      ensures places[k] < |all| && some[k] == all[places[k]] && keep(some[k])
      ensures forall l | k < l < |places| :: places[k] < places[l]
    {
      PlacesBoth(a, b, x, y, keep, p, q, r, k);
    }
  }

  /** Filtering two lists one after the other filters both. */
  lemma FilterBoth<T>(a: seq<T>, b: seq<T>, x: seq<T>, y: seq<T>, keep: T -> bool)
    requires IsFilter(a, x, keep) && IsFilter(b, y, keep)
    ensures IsFilter(a + b, x + y, keep)
  {
    var p :| Selects(a, x, keep, p);
    var q :| Selects(b, y, keep, q);
    SelectsBoth(a, b, x, y, keep, p, q, seq(|q|, k requires 0 <= k < |q| => |a| + q[k]));
  }

  lemma FilterOneMore<T>(all: seq<T>, some: seq<T>, keep: T -> bool, x: T)
    requires IsFilter(all, some, keep)
    ensures IsFilter(all + [x], if keep(x) then some + [x] else some, keep)
  {
    if keep(x) {
      AllKept([x], keep);
      FilterBoth(all, [x], some, [x], keep);
    } else {
      NothingKept([x], keep);
      FilterBoth(all, [x], some, [], keep);
      assert some + [] == some;
    }
  }

  /** There is only one way to filter a list. */
  lemma FilterIsUnique<T>(all: seq<T>, x: seq<T>, y: seq<T>, keep: T -> bool)
    requires IsFilter(all, x, keep) && IsFilter(all, y, keep)
    ensures x == y
  {
    var p :| Selects(all, x, keep, p);
    var q :| Selects(all, y, keep, q);
    PlacesAgree(all, x, y, keep, p, q, |p|);
    PlacesAgree(all, y, x, keep, q, p, |q|);
  }

  lemma {:induction false} PlacesAgree<T>(all: seq<T>, x: seq<T>, y: seq<T>, keep: T -> bool,
                                          p: seq<nat>, q: seq<nat>, n: nat)
    requires Selects(all, x, keep, p) && Selects(all, y, keep, q) && n <= |p|
    ensures n <= |q| && forall k: nat | k < n :: p[k] == q[k]
  {
    hide Selects;
    if n > 0 {
      PlacesAgree(all, x, y, keep, p, q, n - 1);
      NextPlace(all, x, y, keep, p, q, n - 1);
      NextPlace(all, y, x, keep, q, p, n - 1);
    }
  }

  /** Where two ways to filter first differ, neither can be ahead. */
  lemma NextPlace<T>(all: seq<T>, x: seq<T>, y: seq<T>, keep: T -> bool, p: seq<nat>, q: seq<nat>, n: nat)
    requires Selects(all, x, keep, p) && Selects(all, y, keep, q) && n < |p| && n <= |q|
    requires forall k: nat | k < n :: p[k] == q[k]
    ensures n < |q| && q[n] <= p[n]
  {
    assert p[n] in q;
    var m :| 0 <= m < |q| && q[m] == p[n];
    assert m >= n;
  }

  // ----- the keys of a list

  /** The key occurs in the list before the other one does, if that occurs at all. */
  ghost predicate SeenBefore<T>(all: seq<T>, key: T -> string, a: string, b: string) {
    exists i :: 0 <= i < |all| && key(all[i]) == a && forall j | 0 <= j <= i :: key(all[j]) != b
  }

  ghost predicate Occurs<T>(all: seq<T>, key: T -> string, a: string) {
    exists i :: 0 <= i < |all| && key(all[i]) == a
  }

  /** `names` are the different keys of the list in the order they are first seen. */
  ghost predicate FirstSeen<T>(all: seq<T>, key: T -> string, names: seq<string>) {
    && (forall a :: a in names <==> Occurs(all, key, a))
    && (forall k, l | 0 <= k < l < |names| :: SeenBefore(all, key, names[k], names[l]))
  }

  lemma OccursExtends<T>(all: seq<T>, key: T -> string, x: T, a: string)
    ensures Occurs(all + [x], key, a) <==> Occurs(all, key, a) || key(x) == a
  {
    if i :| 0 <= i < |all| && key(all[i]) == a {
      assert (all + [x])[i] == all[i];
    }
    if key(x) == a {
      assert (all + [x])[|all|] == x;
    }
  }

  lemma SeenBeforeAt<T>(all: seq<T>, key: T -> string, x: T, a: string, b: string, i: nat)
    requires i < |all| && key(all[i]) == a && forall j | 0 <= j <= i :: key(all[j]) != b
    ensures SeenBefore(all + [x], key, a, b)
  {
    var more := all + [x];
    assert forall j | 0 <= j <= i :: more[j] == all[j];
    assert key(more[i]) == a;
  }

  lemma SeenBeforeExtends<T>(all: seq<T>, key: T -> string, x: T, a: string, b: string)
    requires SeenBefore(all, key, a, b)
    ensures SeenBefore(all + [x], key, a, b)
  {
    var i :| 0 <= i < |all| && key(all[i]) == a && forall j | 0 <= j <= i :: key(all[j]) != b;
    SeenBeforeAt(all, key, x, a, b, i);
  }

  lemma NewIsSeenLast<T>(all: seq<T>, key: T -> string, x: T, a: string, b: string)
    requires Occurs(all, key, a) && !Occurs(all, key, b)
    ensures SeenBefore(all + [x], key, a, b)
  {
    var i :| 0 <= i < |all| && key(all[i]) == a;
    SeenBeforeAt(all, key, x, a, b, i);
  }

  lemma FirstSeenOneMore<T>(all: seq<T>, key: T -> string, names: seq<string>, x: T)
    requires FirstSeen(all, key, names)
    ensures FirstSeen(all + [x], key, if key(x) in names then names else names + [key(x)])
  {
    hide SeenBefore, Occurs;
    var more := if key(x) in names then names else names + [key(x)];
    forall a
      ensures a in more <==> Occurs(all + [x], key, a)
    {
      OccursExtends(all, key, x, a);
    }
    forall k, l | 0 <= k < l < |more|
      ensures SeenBefore(all + [x], key, more[k], more[l])
    {
      assert more[k] in names;
      if l < |names| {
        SeenBeforeExtends(all, key, x, more[k], more[l]);
      } else {
        NewIsSeenLast(all, key, x, more[k], more[l]);
      }
    }
  }

  lemma NothingSeen<T>(key: T -> string)
    ensures FirstSeen([], key, [])
  {
  }
}
