/** Retained specialization provenance: the origin graph, its descents, and the memoised height check. */
module Provenance {
  import opened Options
  import opened Types

  type Origins = map<string, Origin>

  /** What one node of the provenance graph refers to: an origin its arguments, any other type its components. */
  function Below(origins: Origins, ty: Type): seq<Type>
  {
    if ty.Named? && ty.name in origins then origins[ty.name].arguments else Children(ty)
  }

  ghost predicate Descends(origins: Origins, path: seq<Type>, i: nat)
    requires i + 1 < |path|
  {
    path[i + 1] in Below(origins, path[i])
  }

  /** A descent follows `Below` from node to node; a cycle has descents of every length. */
  ghost predicate IsDescent(origins: Origins, path: seq<Type>)
  {
    path != [] && forall i: nat :: i + 1 < |path| ==> Descends(origins, path, i)
  }

  lemma DescentFrom(origins: Origins, path: seq<Type>, k: nat)
    requires IsDescent(origins, path) && k < |path|
    ensures IsDescent(origins, path[k..]) && path[k..][0] == path[k]
  {
    forall i: nat | i + 1 < |path[k..]| ensures Descends(origins, path[k..], i) {
      assert Descends(origins, path, k + i);
    }
  }

  lemma DescentAfter(origins: Origins, ty: Type, path: seq<Type>)
    requires IsDescent(origins, path) && path[0] in Below(origins, ty)
    ensures IsDescent(origins, [ty] + path)
  {
    var longer := [ty] + path;
    forall i: nat | i + 1 < |longer| ensures Descends(origins, longer, i) {
      if i > 0 {
        assert Descends(origins, path, i - 1);
      }
    }
  }

  lemma DescentOn(origins: Origins, path: seq<Type>, kid: Type)
    requires IsDescent(origins, path) && kid in Below(origins, path[|path| - 1])
    ensures IsDescent(origins, path + [kid])
  {
    var longer := path + [kid];
    forall i: nat | i + 1 < |longer| ensures Descends(origins, longer, i) {
      if i + 1 < |path| {
        assert Descends(origins, path, i);
      }
    }
  }

  /** The provenance of `origins` is acyclic and at most `limit` high. */
  ghost predicate BoundedProvenance(origins: Origins, limit: nat)
  {
    forall path: seq<Type> ::
      IsDescent(origins, path) && path[0].Named? && path[0].name in origins ==> |path| <= limit
  }

  /** Every descent from `ty` has at most `height` nodes. */
  ghost predicate Fits(origins: Origins, ty: Type, height: nat)
    decreases height
  {
    height > 0 && forall i :: 0 <= i < |Below(origins, ty)| ==> Fits(origins, Below(origins, ty)[i], height - 1)
  }

  lemma FitsBelow(origins: Origins, ty: Type, height: nat)
    requires Fits(origins, ty, height)
    ensures height > 0
    ensures ty.Named? && ty.name in origins ==>
              forall i :: 0 <= i < |origins[ty.name].arguments| ==>
                Fits(origins, origins[ty.name].arguments[i], height - 1)
    ensures ty.Tuple? ==> forall i :: 0 <= i < |ty.items| ==> Fits(origins, ty.items[i], height - 1)
    ensures ty.Array? || ty.Ref? || ty.MutRef? ==> Fits(origins, ty.inner, height - 1)
    ensures ty.Applied? ==>
            forall i :: 0 <= i < |ty.arguments| && ty.arguments[i].TypeArg? ==>
              Fits(origins, ty.arguments[i].ty, height - 1)
  {
    var kids := Below(origins, ty);
    if ty.Array? || ty.Ref? || ty.MutRef? {
      assert kids[0] == ty.inner;
    } else if ty.Applied? {
      forall i | 0 <= i < |ty.arguments| && ty.arguments[i].TypeArg?
        ensures Fits(origins, ty.arguments[i].ty, height - 1)
      {
        SlotHolds(ty.arguments, i);
        assert kids[Slot(ty.arguments, i)] == ty.arguments[i].ty;
      }
    }
  }

  ghost predicate ExactHeight(origins: Origins, ty: Type, height: nat)
  {
    Fits(origins, ty, height) && (height > 0 ==> !Fits(origins, ty, height - 1))
  }

  lemma {:induction false} FitsMonotone(origins: Origins, ty: Type, low: nat, high: nat)
    requires low <= high && Fits(origins, ty, low)
    ensures Fits(origins, ty, high)
    decreases high
  {
    forall i | 0 <= i < |Below(origins, ty)| ensures Fits(origins, Below(origins, ty)[i], high - 1) {
      FitsMonotone(origins, Below(origins, ty)[i], low - 1, high - 1);
    }
  }

  /** `Fits` says what it should about descents. */
  lemma {:induction false} FitsBoundsDescents(origins: Origins, ty: Type, height: nat, path: seq<Type>)
    requires Fits(origins, ty, height) && IsDescent(origins, path) && path[0] == ty
    ensures |path| <= height
    decreases height
  {
    if |path| > 1 {
      assert Descends(origins, path, 0);
      DescentFrom(origins, path, 1);
      FitsBoundsDescents(origins, path[1], height - 1, path[1..]);
    }
  }

  lemma {:induction false} LongDescent(origins: Origins, ty: Type, height: nat) returns (path: seq<Type>)
    requires !Fits(origins, ty, height)
    ensures IsDescent(origins, path) && path[0] == ty && |path| == height + 1
    decreases height
  {
    if height == 0 {
      path := [ty];
    } else {
      var i :| 0 <= i < |Below(origins, ty)| && !Fits(origins, Below(origins, ty)[i], height - 1);
      var kid := Below(origins, ty)[i];
      var rest := LongDescent(origins, kid, height - 1);
      DescentAfter(origins, ty, rest);
      path := [ty] + rest;
    }
  }

  ghost predicate AllFit(origins: Origins, limit: nat)
  {
    forall name :: name in origins ==> Fits(origins, Named(name), limit)
  }

  lemma AllFitIsBounded(origins: Origins, limit: nat)
    ensures AllFit(origins, limit) <==> BoundedProvenance(origins, limit)
  {
    if AllFit(origins, limit) {
      forall path: seq<Type> | IsDescent(origins, path) && path[0].Named? && path[0].name in origins
        ensures |path| <= limit
      {
        FitsBoundsDescents(origins, path[0], limit, path);
      }
    } else {
      var name :| name in origins && !Fits(origins, Named(name), limit);
      var path := LongDescent(origins, Named(name), limit);
    }
  }

  lemma {:induction false} NestingBelow(parent: Type, tys: seq<Type>, i: nat)
    requires i < |tys| && forall j :: 0 <= j < |tys| ==> tys[j] < parent
    ensures TypeNesting(tys[i]) <= MaxNesting(parent, tys)
  {
    if i > 0 {
      NestingBelow(parent, tys[1..], i - 1);
    }
  }

  /** Unfolding any type over bounded provenance ends, so its identity can be rendered. */
  lemma BoundedUnfolds(origins: Origins, limit: nat, ty: Type)
    requires BoundedProvenance(origins, limit)
    ensures Fits(origins, ty, TypeNesting(ty) + limit)
  {
    AllFitIsBounded(origins, limit);
    Unfolds(origins, limit, ty, TypeNesting(ty) + limit);
  }

  lemma {:induction false} Unfolds(origins: Origins, limit: nat, ty: Type, height: nat)
    requires AllFit(origins, limit) && TypeNesting(ty) + limit <= height
    ensures Fits(origins, ty, height)
    decreases ty
  {
    if ty.Named? && ty.name in origins {
      FitsMonotone(origins, ty, limit, height);
    } else {
      var kids := Children(ty);
      forall i | 0 <= i < |kids| ensures Fits(origins, kids[i], height - 1) {
        NestingBelow(ty, kids, i);
        Unfolds(origins, limit, kids[i], height - 1);
      }
    }
  }

  /** Bounded provenance has no cycle: no descent from an origin returns to it. */
  lemma BoundedIsAcyclic(origins: Origins, limit: nat, path: seq<Type>)
    requires BoundedProvenance(origins, limit)
    requires IsDescent(origins, path) && |path| > 1 && path[0].Named? && path[0].name in origins
    ensures path[|path| - 1] != path[0]
  {
    if path[|path| - 1] == path[0] {
      AllFitIsBounded(origins, limit);
      assert Beneath(origins, path[0], path[0]) by { DescentIsBeneath(origins, path); }
      CycleNeverFits(origins, path[0], limit);
    }
  }

  /** `lower` lies strictly below `upper`. */
  ghost predicate Beneath(origins: Origins, upper: Type, lower: Type)
  {
    forall height: nat :: Fits(origins, upper, height) ==> Fits(origins, lower, height - 1)
  }

  lemma {:induction false} DescentIsBeneath(origins: Origins, path: seq<Type>)
    requires IsDescent(origins, path) && |path| > 1
    ensures Beneath(origins, path[0], path[|path| - 1])
    decreases |path|
  {
    assert Descends(origins, path, 0);
    if |path| > 2 {
      var tail := path[1..];
      DescentFrom(origins, path, 1);
      DescentIsBeneath(origins, tail);
      forall height: nat | Fits(origins, path[0], height) ensures Fits(origins, path[|path| - 1], height - 1) {
        assert Fits(origins, path[1], height - 1);
        assert Fits(origins, tail[|tail| - 1], height - 2);
        FitsMonotone(origins, path[|path| - 1], height - 2, height - 1);
      }
    }
  }

  lemma {:induction false} CycleNeverFits(origins: Origins, ty: Type, height: nat)
    requires Beneath(origins, ty, ty)
    ensures !Fits(origins, ty, height)
    decreases height
  {
    if height > 0 {
      CycleNeverFits(origins, ty, height - 1);
    }
  }

  ghost predicate KnownHeights(origins: Origins, limit: nat, heights: map<string, nat>)
  {
    forall name :: name in heights ==>
      name in origins && ExactHeight(origins, Named(name), heights[name]) && heights[name] <= limit
  }

  /** The walk followed `path` from an origin to its last node, meeting every active origin before it. */
  ghost predicate Standing(origins: Origins, path: seq<Type>, active: set<string>)
  {
    && IsDescent(origins, path) && path[0].Named? && path[0].name in origins
    && |active| < |path|
    && forall name :: name in active ==> exists i :: 0 <= i < |path| - 1 && path[i] == Named(name)
  }

  lemma StandingBelow(origins: Origins, path: seq<Type>, active: set<string>, ty: Type, kid: Type)
    requires Standing(origins, path, active) && path[|path| - 1] == ty && kid in Below(origins, ty)
    ensures Standing(origins, path + [kid], active)
    ensures ty.Named? ==> Standing(origins, path + [kid], active + {ty.name})
  {
    var longer := path + [kid];
    DescentOn(origins, path, kid);
    forall name | name in active ensures exists i :: 0 <= i < |longer| - 1 && longer[i] == Named(name) {
      var i :| 0 <= i < |path| - 1 && path[i] == Named(name);
      assert longer[i] == Named(name);
    }
    assert longer[|path| - 1] == ty;
  }

  /** An active origin met again closes a cycle. */
  lemma MetAgain(origins: Origins, limit: nat, path: seq<Type>, active: set<string>, name: string)
    requires Standing(origins, path, active) && path[|path| - 1] == Named(name) && name in active && name in origins
    ensures !AllFit(origins, limit)
  {
    var i :| 0 <= i < |path| - 1 && path[i] == Named(name);
    DescentFrom(origins, path, i);
    DescentIsBeneath(origins, path[i..]);
    CycleNeverFits(origins, Named(name), limit);
  }

  lemma TooManyActive(origins: Origins, limit: nat, path: seq<Type>, active: set<string>)
    requires Standing(origins, path, active) && |active| >= limit
    ensures !AllFit(origins, limit)
  {
    if AllFit(origins, limit) {
      FitsBoundsDescents(origins, path[0], limit, path);
    }
  }

  /** The height of one origin, memoised in `heights`; `None` rejects the whole map. */
  method OriginHeight(origins: Origins, limit: nat, name: string, active: set<string>, heights: map<string, nat>,
                      ghost path: seq<Type>)
    returns (height: Option<nat>, heights': map<string, nat>)
    requires name in origins && active <= origins.Keys && KnownHeights(origins, limit, heights)
    requires Standing(origins, path, active) && path[|path| - 1] == Named(name)
    ensures KnownHeights(origins, limit, heights')
    ensures height.Some? ==> height.value <= limit && ExactHeight(origins, Named(name), height.value)
    ensures height.None? ==> !AllFit(origins, limit)
    decreases |origins.Keys - active|, Named(name), 0
  {
    heights' := heights;
    if name in heights {
      return Some(heights[name]), heights';
    }
    if name in active {
      MetAgain(origins, limit, path, active, name);
      return None, heights';
    }
    var active' := active + {name};
    if |active'| > limit {
      TooManyActive(origins, limit, path, active);
      return None, heights';
    }
    SubsetCardinality(origins.Keys - active', origins.Keys - active, name);
    StandingBelowOrigin(origins, path, active, name);
    height, heights' := OneAbove(origins, limit, Named(name), origins[name].arguments, active', heights', path,
                                 Tuple(origins[name].arguments));
    if height.None? {
      return;
    }
    if height.value > limit {
      TooTall(origins, limit, name, height.value);
      return None, heights';
    }
    HeightRetained(origins, limit, heights', name, height.value);
    heights' := heights'[name := height.value];
  }

  lemma StandingBelowOrigin(origins: Origins, path: seq<Type>, active: set<string>, name: string)
    requires Standing(origins, path, active) && path[|path| - 1] == Named(name) && name in origins
    ensures AllStanding(origins, path, origins[name].arguments, active + {name})
  {
    var kids := origins[name].arguments;
    forall i | 0 <= i < |kids| ensures Standing(origins, path + [kids[i]], active + {name}) {
      StandingBelow(origins, path, active, Named(name), kids[i]);
    }
  }

  ghost predicate AllStanding(origins: Origins, path: seq<Type>, kids: seq<Type>, active: set<string>)
  {
    forall i :: 0 <= i < |kids| ==> Standing(origins, path + [kids[i]], active)
  }

  lemma StandingBelowType(origins: Origins, path: seq<Type>, active: set<string>, ty: Type)
    requires Standing(origins, path, active) && path[|path| - 1] == ty && !(ty.Named? && ty.name in origins)
    ensures AllStanding(origins, path, Children(ty), active)
  {
    var kids := Children(ty);
    forall i | 0 <= i < |kids| ensures Standing(origins, path + [kids[i]], active) {
      StandingBelow(origins, path, active, ty, kids[i]);
    }
  }

  lemma HeightRetained(origins: Origins, limit: nat, heights: map<string, nat>, name: string, height: nat)
    requires KnownHeights(origins, limit, heights) && name in origins
    requires ExactHeight(origins, Named(name), height) && height <= limit
    ensures KnownHeights(origins, limit, heights[name := height])
  {
  }

  lemma SubsetCardinality<T>(small: set<T>, big: set<T>, x: T)
    requires small <= big && x in big && x !in small
    ensures |small| < |big|
  {
    assert small <= big - {x};
    SubsetAtMost(small, big - {x});
  }

  lemma {:induction false} SubsetAtMost<T>(small: set<T>, big: set<T>)
    requires small <= big
    ensures |small| <= |big|
  {
    if small != {} {
      var x :| x in small;
      SubsetAtMost(small - {x}, big - {x});
    }
  }

  lemma TooTall(origins: Origins, limit: nat, name: string, exact: nat)
    requires name in origins && ExactHeight(origins, Named(name), exact) && limit < exact
    ensures !AllFit(origins, limit)
  {
    if AllFit(origins, limit) {
      FitsMonotone(origins, Named(name), limit, exact - 1);
    }
  }

  ghost predicate TallestIs(origins: Origins, kids: seq<Type>, tallest: nat)
  {
    && (forall i :: 0 <= i < |kids| ==> Fits(origins, kids[i], tallest))
    && (tallest > 0 ==> exists i :: 0 <= i < |kids| && !Fits(origins, kids[i], tallest - 1))
  }

  lemma TallestStep(origins: Origins, kids: seq<Type>, n: nat, tallest: nat, height: nat)
    requires n < |kids| && TallestIs(origins, kids[..n], tallest) && ExactHeight(origins, kids[n], height)
    ensures TallestIs(origins, kids[..n + 1], if height > tallest then height else tallest)
  {
    var before, all, now := kids[..n], kids[..n + 1], if height > tallest then height else tallest;
    forall i | 0 <= i < |all| ensures Fits(origins, all[i], now) {
      assert i < n ==> all[i] == before[i];
      FitsMonotone(origins, all[i], if i < n then tallest else height, now);
    }
    if height <= tallest && tallest > 0 {
      var i :| 0 <= i < n && !Fits(origins, before[i], tallest - 1);
      assert all[i] == before[i];
    } else {
      assert all[n] == kids[n];
    }
  }

  lemma TallestGives(origins: Origins, ty: Type, tallest: nat)
    requires TallestIs(origins, Below(origins, ty), tallest)
    ensures ExactHeight(origins, ty, tallest + 1)
  {
  }

  /** The height of a type: one more than its tallest component, or its origin's height. */
  method TypeHeight(origins: Origins, limit: nat, ty: Type, active: set<string>, heights: map<string, nat>,
                    ghost path: seq<Type>)
    returns (height: Option<nat>, heights': map<string, nat>)
    requires active <= origins.Keys && KnownHeights(origins, limit, heights)
    requires Standing(origins, path, active) && path[|path| - 1] == ty
    ensures KnownHeights(origins, limit, heights')
    ensures height.Some? ==> ExactHeight(origins, ty, height.value)
    ensures height.None? ==> !AllFit(origins, limit)
    decreases |origins.Keys - active|, ty, 1
  {
    if ty.Named? && ty.name in origins {
      height, heights' := OriginHeight(origins, limit, ty.name, active, heights, path);
    } else {
      StandingBelowType(origins, path, active, ty);
      height, heights' := OneAbove(origins, limit, ty, Children(ty), active, heights, path, ty);
    }
  }

  /** One more than the tallest of the nodes below `ty`. */
  method OneAbove(origins: Origins, limit: nat, ghost ty: Type, kids: seq<Type>, active: set<string>,
                  heights: map<string, nat>, ghost path: seq<Type>, ghost bound: Type)
    returns (height: Option<nat>, heights': map<string, nat>)
    requires active <= origins.Keys && KnownHeights(origins, limit, heights)
    requires kids == Below(origins, ty) && forall i :: 0 <= i < |kids| ==> kids[i] < bound
    requires AllStanding(origins, path, kids, active)
    ensures KnownHeights(origins, limit, heights')
    ensures height.Some? ==> ExactHeight(origins, ty, height.value)
    ensures height.None? ==> !AllFit(origins, limit)
    decreases |origins.Keys - active|, bound, 0
  {
    heights' := heights;
    var tallest := 0;
    for i := 0 to |kids|
      invariant KnownHeights(origins, limit, heights')
      invariant TallestIs(origins, kids[..i], tallest)
    {
      var kid;
      kid, heights' := TypeHeight(origins, limit, kids[i], active, heights', path + [kids[i]]);
      if kid.None? {
        return None, heights';
      }
      TallestStep(origins, kids, i, tallest, kid.value);
      if kid.value > tallest {
        tallest := kid.value;
      }
    }
    assert kids[..|kids|] == kids;
    TallestGives(origins, ty, tallest);
    return Some(tallest + 1), heights';
  }

  lemma StandingAtOrigin(origins: Origins, name: string)
    requires name in origins
    ensures Standing(origins, [Named(name)], {})
  {
  }

  method AllHeights(origins: Origins, limit: nat) returns (ok: bool)
    ensures ok <==> AllFit(origins, limit)
  {
    var heights: map<string, nat> := map[];
    var todo := origins.Keys;
    while todo != {}
      invariant todo <= origins.Keys && KnownHeights(origins, limit, heights)
      invariant forall name :: name in origins && name !in todo ==> Fits(origins, Named(name), limit)
      decreases todo
    {
      var name :| name in todo;
      StandingAtOrigin(origins, name);
      var height;
      height, heights := OriginHeight(origins, limit, name, {}, heights, [Named(name)]);
      if height.None? {
        return false;
      }
      FitsMonotone(origins, Named(name), height.value, limit);
      todo := todo - {name};
    }
    return true;
  }

  /** Accepts an origin map exactly when its provenance is acyclic and at most 32 high. */
  method ValidateHeights(origins: Origins) returns (ok: bool)
    ensures ok <==> BoundedProvenance(origins, MAX_GENERIC_NESTING)
  {
    ok := AllHeights(origins, MAX_GENERIC_NESTING);
    AllFitIsBounded(origins, MAX_GENERIC_NESTING);
  }
}
