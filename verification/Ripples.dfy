/**
Ripples to all stars: the flood that a wrangling star sets off.

A star that wrangles sends a ripple to its neighbours; a forwarder that gets
one sends its own on, with the history it received.  The history keeps a
ripple from returning.  A copy of the ripple is given its trail here, the
stars it has come through; the stars themselves only look at the history.
 */
module Ripples {
  import opened Stars

  datatype Ripple = Ripple(history: set<StarKey>)

  /** The sharding of a ripple: one copy for each neighbour that is not in its history. */
  function Sharded(star: Star, ripple: Ripple): map<StarKey, Ripple> {
    map k | k in star.adjacents.Keys - ripple.history :: Ripple(ripple.history + {star.key})
  }

  method ShardRipple(star: Star, ripple: Ripple) returns (copies: map<StarKey, Ripple>)
    ensures copies == Sharded(star, ripple)
    ensures forall k :: k in copies <==> k in star.adjacents && k !in ripple.history
    ensures forall k :: k in copies ==> copies[k] == Ripple(ripple.history + {star.key})
  {
    copies := map[];
    var rest := star.adjacents.Keys;
    while rest != {}
      invariant rest <= star.adjacents.Keys
      invariant copies == map k | k in star.adjacents.Keys - rest - ripple.history ::
                            Ripple(ripple.history + {star.key})
      decreases rest
    {
      var point :| point in rest;
      if point !in ripple.history {
        // add this star to history
        copies := copies[point := Ripple(ripple.history + {star.key})];
      }
      rest := rest - {point};
    }
  }

  /** Giving a ripple to gravity puts the star into its history before it is sharded. */
  function ToGravity(star: StarKey, ripple: Ripple): Ripple {
    Ripple(ripple.history + {star})
  }

  // ---------------------------------------------------------------- the flood

  datatype Copy = Copy(at: StarKey, ripple: Ripple, trail: seq<StarKey>)

  /** The copies a star sends when it wrangles with the given history. */
  function Wrangled(star: Star, received: Ripple, trail: seq<StarKey>): set<Copy> {
    var sharded := Sharded(star, ToGravity(star.key, received));
    set k | k in sharded :: Copy(k, sharded[k], trail + [k])
  }

  /** What a copy sets off at its star: forwarders wrangle on, other stars do not. */
  function Resent(stars: Constellation, copy: Copy): set<Copy> {
    if copy.at in stars && stars[copy.at].kind.IsForwarder()
    then Wrangled(stars[copy.at], copy.ripple, copy.trail)
    else {}
  }

  datatype Flood = Flood(flying: set<Copy>, arrived: set<Copy>)

  function Begin(stars: Constellation, origin: StarKey): Flood
    requires origin in stars
  {
    Flood(Wrangled(stars[origin], Ripple({}), [origin]), {})
  }

  function Arrive(stars: Constellation, flood: Flood, copy: Copy): Flood
    requires copy in flood.flying
  {
    Flood(flood.flying - {copy} + Resent(stars, copy), flood.arrived + {copy})
  }

  /** The copies arrive one by one, in any order. */
  predicate CanArrive(stars: Constellation, flood: Flood, copies: seq<Copy>)
    decreases copies
  {
    |copies| == 0 || (copies[0] in flood.flying && CanArrive(stars, Arrive(stars, flood, copies[0]), copies[1..]))
  }

  function After(stars: Constellation, flood: Flood, copies: seq<Copy>): Flood
    requires CanArrive(stars, flood, copies)
    decreases copies
  {
    if |copies| == 0 then flood else After(stars, Arrive(stars, flood, copies[0]), copies[1..])
  }

  // ---------------------------------------------------------------- simple paths

  predicate Distinct(path: seq<StarKey>) {
    forall i, j | 0 <= i < j < |path| :: path[i] != path[j]
  }

  predicate Relays(stars: Constellation, origin: StarKey, star: StarKey) {
    star in stars && (star == origin || stars[star].kind.IsForwarder())
  }

  /** A walk along neighbours from the origin on which every star but the last relays. */
  predicate Walk(stars: Constellation, origin: StarKey, walk: seq<StarKey>) {
    && |walk| > 0 && walk[0] == origin
    && forall i | 0 <= i < |walk| - 1 :: Relays(stars, origin, walk[i]) && walk[i + 1] in stars[walk[i]].adjacents
  }

  predicate SimplePath(stars: Constellation, origin: StarKey, path: seq<StarKey>) {
    Walk(stars, origin, path) && Distinct(path)
  }

  function StarsOn(path: seq<StarKey>): set<StarKey> {
    set i | 0 <= i < |path| :: path[i]
  }

  /** The copy that has travelled the given path. */
  function CopyOn(path: seq<StarKey>): Copy
    requires |path| > 0
  {
    Copy(path[|path| - 1], Ripple(StarsOn(path[..|path| - 1])), path)
  }

  lemma StarsOnAppend(path: seq<StarKey>, star: StarKey)
    ensures StarsOn(path + [star]) == StarsOn(path) + {star}
  {
    var longer := path + [star];
    forall k
      ensures k in StarsOn(longer) <==> k in StarsOn(path) || k == star
    {
      if k in StarsOn(path) {
        var i :| 0 <= i < |path| && path[i] == k;
        assert longer[i] == k;
      }
      assert longer[|path|] == star;
    }
  }

  /** Going on from the end of a path: exactly the longer simple paths. */
  lemma ExtendPath(stars: Constellation, origin: StarKey, path: seq<StarKey>, star: StarKey)
    requires SimplePath(stars, origin, path)
    ensures SimplePath(stars, origin, path + [star]) <==>
            var last := path[|path| - 1];
            Relays(stars, origin, last) && star in stars[last].adjacents && star !in StarsOn(path)
  {
    var longer := path + [star];
    assert forall i :: 0 <= i < |path| ==> longer[i] == path[i];
    assert longer[|path|] == star;
    if SimplePath(stars, origin, longer) {
      assert Relays(stars, origin, longer[|path| - 1]) && longer[|path| - 1 + 1] in stars[longer[|path| - 1]].adjacents;
    }
  }

  lemma PrefixOfPath(stars: Constellation, origin: StarKey, path: seq<StarKey>, n: nat)
    requires SimplePath(stars, origin, path) && 0 < n <= |path|
    ensures SimplePath(stars, origin, path[..n])
  {
  }

  /** A star at the end of a simple path sends on to exactly the simple paths one longer. */
  lemma WrangledAreLongerPaths(stars: Constellation, origin: StarKey, path: seq<StarKey>, copy: Copy)
    requires KeysAgree(stars) && SimplePath(stars, origin, path)
    requires Relays(stars, origin, path[|path| - 1])
    ensures var last := path[|path| - 1];
            copy in Wrangled(stars[last], CopyOn(path).ripple, path) <==>
            |copy.trail| == |path| + 1 && copy.trail[..|path|] == path
            && SimplePath(stars, origin, copy.trail) && copy == CopyOn(copy.trail)
  {
    var last := path[|path| - 1];
    assert path == path[..|path| - 1] + [last];
    StarsOnAppend(path[..|path| - 1], last);
    if copy in Wrangled(stars[last], CopyOn(path).ripple, path) {
      ExtendPath(stars, origin, path, copy.at);
      assert (path + [copy.at])[..|path|] == path;
    }
    if |copy.trail| == |path| + 1 && copy.trail[..|path|] == path
       && SimplePath(stars, origin, copy.trail) && copy == CopyOn(copy.trail) {
      assert copy.trail == path + [copy.at];
      ExtendPath(stars, origin, path, copy.at);
    }
  }

  // ---------------------------------------------------------------- what every arrival keeps

  /** Every copy has come a simple path, with the stars on it as its history. */
  ghost predicate OnSimplePaths(stars: Constellation, origin: StarKey, flood: Flood) {
    forall copy :: copy in flood.flying + flood.arrived ==>
      |copy.trail| >= 2 && SimplePath(stars, origin, copy.trail) && copy == CopyOn(copy.trail)
  }

  /** No simple path is forgotten: its copy exists, or that of a part of it is still flying. */
  ghost predicate NoneForgotten(stars: Constellation, origin: StarKey, flood: Flood) {
    forall path :: |path| >= 2 && SimplePath(stars, origin, path) ==> Pending(flood, path)
  }

  ghost predicate Pending(flood: Flood, path: seq<StarKey>)
    requires |path| >= 2
  {
    || CopyOn(path) in flood.arrived
    || exists n :: 2 <= n <= |path| && CopyOn(path[..n]) in flood.flying
  }

  /** A copy is set off by the arrival of the copy on the path before it. */
  ghost predicate ParentsArrived(flood: Flood) {
    forall copy :: copy in flood.flying + flood.arrived && |copy.trail| > 2 ==>
      CopyOn(copy.trail[..|copy.trail| - 1]) in flood.arrived
  }

  ghost predicate FloodInv(stars: Constellation, origin: StarKey, flood: Flood) {
    && OnSimplePaths(stars, origin, flood)
    && NoneForgotten(stars, origin, flood)
    && ParentsArrived(flood)
    && flood.flying !! flood.arrived
  }

  lemma OriginPath(stars: Constellation, origin: StarKey)
    requires origin in stars
    ensures SimplePath(stars, origin, [origin]) && Relays(stars, origin, origin)
    ensures CopyOn([origin]) == Copy(origin, Ripple({}), [origin])
  {
    assert [origin][..0] == [];
  }

  lemma BeginInv(stars: Constellation, origin: StarKey)
    requires KeysAgree(stars) && origin in stars
    ensures FloodInv(stars, origin, Begin(stars, origin))
  {
    var flood := Begin(stars, origin);
    OriginPath(stars, origin);
    forall copy | copy in flood.flying
      ensures |copy.trail| >= 2 && SimplePath(stars, origin, copy.trail) && copy == CopyOn(copy.trail)
    {
      WrangledAreLongerPaths(stars, origin, [origin], copy);
    }
    forall path | |path| >= 2 && SimplePath(stars, origin, path)
      ensures Pending(flood, path)
    {
      PrefixOfPath(stars, origin, path, 2);
      assert path[..2][..1] == [origin];
      WrangledAreLongerPaths(stars, origin, [origin], CopyOn(path[..2]));
      assert CopyOn(path[..2]) in flood.flying;
    }
  }

  /** The copies a copy sets off are those of the paths one longer, if its star relays. */
  lemma ResentAreLongerPaths(stars: Constellation, origin: StarKey, path: seq<StarKey>, copy: Copy)
    requires KeysAgree(stars) && SimplePath(stars, origin, path) && |path| >= 2
    ensures copy in Resent(stars, CopyOn(path)) <==>
            |copy.trail| == |path| + 1 && copy.trail[..|path|] == path
            && SimplePath(stars, origin, copy.trail) && copy == CopyOn(copy.trail)
  {
    var last := path[|path| - 1];
    assert last != path[0];
    if Relays(stars, origin, last) {
      WrangledAreLongerPaths(stars, origin, path, copy);
    } else if |copy.trail| == |path| + 1 && copy.trail[..|path|] == path {
      assert copy.trail == path + [copy.trail[|path|]];
      ExtendPath(stars, origin, path, copy.trail[|path|]);
    }
  }

  /** What an arrival sets off has not been set off before. */
  lemma ResentAreNew(stars: Constellation, origin: StarKey, flood: Flood, copy: Copy, c: Copy)
    requires KeysAgree(stars) && FloodInv(stars, origin, flood) && copy in flood.flying && c in Resent(stars, copy)
    ensures |c.trail| > 2 && SimplePath(stars, origin, c.trail) && c == CopyOn(c.trail)
    ensures CopyOn(c.trail[..|c.trail| - 1]) == copy
    ensures c !in flood.arrived && c !in flood.flying
  {
    ResentAreLongerPaths(stars, origin, copy.trail, c);
    hide Resent, SimplePath, NoneForgotten;
    assert CopyOn(c.trail[..|c.trail| - 1]) == copy;
    assert copy !in flood.arrived;
  }

  lemma ArriveKeepsPaths(stars: Constellation, origin: StarKey, flood: Flood, copy: Copy)
    requires KeysAgree(stars) && FloodInv(stars, origin, flood) && copy in flood.flying
    ensures var next := Arrive(stars, flood, copy);
            OnSimplePaths(stars, origin, next) && ParentsArrived(next) && next.flying !! next.arrived
  {
    hide Resent, SimplePath, NoneForgotten;
    forall c | c in Resent(stars, copy)
      ensures |c.trail| > 2 && SimplePath(stars, origin, c.trail) && c == CopyOn(c.trail)
      ensures CopyOn(c.trail[..|c.trail| - 1]) == copy
      ensures c !in flood.arrived && c !in flood.flying
    {
      ResentAreNew(stars, origin, flood, copy, c);
    }
  }

  lemma ArriveKeepsPending(stars: Constellation, origin: StarKey, flood: Flood, copy: Copy, path: seq<StarKey>)
    requires KeysAgree(stars) && FloodInv(stars, origin, flood) && copy in flood.flying
    requires |path| >= 2 && SimplePath(stars, origin, path) && Pending(flood, path)
    ensures Pending(Arrive(stars, flood, copy), path)
  {
    hide FloodInv, SimplePath, Resent, CopyOn, Pending;
    var next := Arrive(stars, flood, copy);
    var n := PendingWhere(flood, path);
    if n == 0 {
      PendingArrived(next, path);
    } else if CopyOn(path[..n]) != copy {
      PendingFlying(next, path, n);
    } else if n == |path| {
      assert path[..n] == path;
      PendingArrived(next, path);
    } else {
      PrefixOfPath(stars, origin, path, n);
      PrefixOfPath(stars, origin, path, n + 1);
      assert path[..n + 1][..n] == path[..n];
      CopyOnTrail(path[..n + 1]);
      ResentAreLongerPaths(stars, origin, path[..n], CopyOn(path[..n + 1]));
      PendingFlying(next, path, n + 1);
    }
  }

  lemma CopyOnTrail(path: seq<StarKey>)
    requires |path| > 0
    ensures CopyOn(path).trail == path
  {
  }

  /** The part of the path whose copy is flying, or 0 if the path's copy has arrived. */
  lemma PendingWhere(flood: Flood, path: seq<StarKey>) returns (n: nat)
    requires |path| >= 2 && Pending(flood, path)
    ensures n == 0 ==> CopyOn(path) in flood.arrived
    ensures n > 0 ==> 2 <= n <= |path| && CopyOn(path[..n]) in flood.flying
  {
    hide CopyOn;
    if CopyOn(path) in flood.arrived {
      n := 0;
    } else {
      n :| 2 <= n <= |path| && CopyOn(path[..n]) in flood.flying;
    }
  }

  lemma PendingArrived(flood: Flood, path: seq<StarKey>)
    requires |path| >= 2 && CopyOn(path) in flood.arrived
    ensures Pending(flood, path)
  {
  }

  lemma PendingFlying(flood: Flood, path: seq<StarKey>, n: nat)
    requires 2 <= n <= |path| && CopyOn(path[..n]) in flood.flying
    ensures Pending(flood, path)
  {
  }

  lemma ArriveKeepsInv(stars: Constellation, origin: StarKey, flood: Flood, copy: Copy)
    requires KeysAgree(stars) && FloodInv(stars, origin, flood) && copy in flood.flying
    ensures FloodInv(stars, origin, Arrive(stars, flood, copy))
  {
    ArriveKeepsPaths(stars, origin, flood, copy);
    hide SimplePath, Pending, Arrive, OnSimplePaths, ParentsArrived;
    var next := Arrive(stars, flood, copy);
    forall path | |path| >= 2 && SimplePath(stars, origin, path)
      ensures Pending(next, path)
    {
      assert Pending(flood, path);
      ArriveKeepsPending(stars, origin, flood, copy, path);
    }
  }

  lemma {:induction false} AfterKeepsInv(stars: Constellation, origin: StarKey, flood: Flood, copies: seq<Copy>)
    requires KeysAgree(stars) && FloodInv(stars, origin, flood) && CanArrive(stars, flood, copies)
    ensures FloodInv(stars, origin, After(stars, flood, copies))
    ensures |After(stars, flood, copies).arrived| == |flood.arrived| + |copies|
    decreases copies
  {
    hide FloodInv, KeysAgree, Arrive;
    if |copies| > 0 {
      ArriveKeepsInv(stars, origin, flood, copies[0]);
      ArriveAddsOne(stars, origin, flood, copies[0]);
      AfterKeepsInv(stars, origin, Arrive(stars, flood, copies[0]), copies[1..]);
    }
  }

  lemma ArriveAddsOne(stars: Constellation, origin: StarKey, flood: Flood, copy: Copy)
    requires FloodInv(stars, origin, flood) && copy in flood.flying
    ensures |Arrive(stars, flood, copy).arrived| == |flood.arrived| + 1
  {
    hide OnSimplePaths, NoneForgotten, ParentsArrived, Resent;
    assert copy !in flood.arrived;
  }

  // ---------------------------------------------------------------- the flood is the set of simple paths

  /** All simple paths of a length, as a finite set. */
  function PathsOfLength(stars: Constellation, origin: StarKey, n: nat): (paths: set<seq<StarKey>>)
    requires n > 0
    ensures forall path :: path in paths ==> |path| == n
  {
    if n == 1 then {[origin]}
    else
      set path, k | path in PathsOfLength(stars, origin, n - 1) && path[n - 2] in stars
                    && k in stars[path[n - 2]].adjacents.Keys && SimplePath(stars, origin, path + [k]) :: path + [k]
  }

  lemma {:induction false} PathsAreOfLength(stars: Constellation, origin: StarKey, path: seq<StarKey>)
    requires |path| > 0
    ensures path in PathsOfLength(stars, origin, |path|) <==> SimplePath(stars, origin, path)
  {
    var n := |path|;
    if n == 1 {
      assert path == [path[0]];
    } else {
      var front, last := path[..n - 1], path[n - 1];
      assert path == front + [last];
      PathsAreOfLength(stars, origin, front);
      if SimplePath(stars, origin, path) {
        PrefixOfPath(stars, origin, path, n - 1);
        assert Relays(stars, origin, path[n - 2]) && path[n - 2 + 1] in stars[path[n - 2]].adjacents;
        assert front[n - 2] == path[n - 2];
      }
    }
  }

  /** The copies on all simple paths of two to n stars. */
  function CopiesUpTo(stars: Constellation, origin: StarKey, n: nat): set<Copy> {
    if n <= 1 then {}
    else CopiesUpTo(stars, origin, n - 1) + set path | path in PathsOfLength(stars, origin, n) :: CopyOn(path)
  }

  lemma {:induction false} CopiesAreOnPaths(stars: Constellation, origin: StarKey, n: nat, copy: Copy)
    ensures copy in CopiesUpTo(stars, origin, n) <==>
            2 <= |copy.trail| <= n && SimplePath(stars, origin, copy.trail) && copy == CopyOn(copy.trail)
  {
    hide SimplePath, PathsOfLength, CopiesUpTo, CopyOn;
    CopiesOneLonger(stars, origin, n, copy);
    if n > 1 {
      CopiesAreOnPaths(stars, origin, n - 1, copy);
      if |copy.trail| == n {
        PathsAreOfLength(stars, origin, copy.trail);
      }
    }
  }

  lemma CopiesOneLonger(stars: Constellation, origin: StarKey, n: nat, copy: Copy)
    ensures n <= 1 ==> copy !in CopiesUpTo(stars, origin, n)
    ensures n > 1 ==>
              (copy in CopiesUpTo(stars, origin, n) <==>
               || copy in CopiesUpTo(stars, origin, n - 1)
               || (|copy.trail| == n && copy.trail in PathsOfLength(stars, origin, n) && copy == CopyOn(copy.trail)))
  {
    hide PathsOfLength;
    if n > 1 {
      var longer := set path | path in PathsOfLength(stars, origin, n) :: CopyOn(path);
      assert CopiesUpTo(stars, origin, n) == CopiesUpTo(stars, origin, n - 1) + longer;
      hide CopiesUpTo;
      assert copy in longer ==> |copy.trail| == n && copy.trail in PathsOfLength(stars, origin, n);
    }
  }

  /** A simple path has at most one star more than there are stars. */
  lemma PathsAreShort(stars: Constellation, origin: StarKey, path: seq<StarKey>)
    requires SimplePath(stars, origin, path)
    ensures |path| <= |stars| + 1
  {
    var front := path[..|path| - 1];
    DistinctCount(front);
    forall k | k in StarsOn(front)
      ensures k in stars
    {
      var i :| 0 <= i < |front| && front[i] == k;
      assert Relays(stars, origin, path[i]);
    }
    SubsetCount(StarsOn(front), stars.Keys);
  }

  lemma {:induction false} DistinctCount(path: seq<StarKey>)
    requires Distinct(path)
    ensures |StarsOn(path)| == |path|
  {
    if |path| == 0 {
      assert StarsOn(path) == {};
    } else {
      var front, last := path[..|path| - 1], path[|path| - 1];
      assert path == front + [last];
      StarsOnAppend(front, last);
      DistinctCount(front);
      assert last !in StarsOn(front);
    }
  }

  function AllCopies(stars: Constellation, origin: StarKey): set<Copy> {
    CopiesUpTo(stars, origin, |stars| + 1)
  }

  lemma AllCopiesAreAll(stars: Constellation, origin: StarKey, copy: Copy)
    ensures copy in AllCopies(stars, origin) <==>
            |copy.trail| >= 2 && SimplePath(stars, origin, copy.trail) && copy == CopyOn(copy.trail)
  {
    CopiesAreOnPaths(stars, origin, |stars| + 1, copy);
    if SimplePath(stars, origin, copy.trail) {
      PathsAreShort(stars, origin, copy.trail);
    }
  }

  /**
  The flood, in any order of arrivals: every copy has come a simple path and has
  exactly the stars behind it in its history, so it never returns to one; no
  more copies arrive than there are simple paths; and when none is flying any
  more, the copies that have arrived are those of all simple paths.
   */
  lemma FloodIsSimplePaths(stars: Constellation, origin: StarKey, copies: seq<Copy>)
    requires KeysAgree(stars) && origin in stars && CanArrive(stars, Begin(stars, origin), copies)
    ensures var flood := After(stars, Begin(stars, origin), copies);
            && (forall copy :: copy in flood.flying + flood.arrived ==>
                  copy in AllCopies(stars, origin) && copy.at !in copy.ripple.history)
            && |copies| == |flood.arrived| <= |AllCopies(stars, origin)|
            && (flood.flying == {} <==> flood.arrived == AllCopies(stars, origin))
  {
    var begin := Begin(stars, origin);
    BeginInv(stars, origin);
    AfterKeepsInv(stars, origin, begin, copies);
    assert begin.arrived == {};
    hide After, Begin, CanArrive, AllCopies, FloodInv;
    var flood := After(stars, begin, copies);
    CopiesOfFlood(stars, origin, flood);
    RestingFlood(stars, origin, flood);
    SubsetCount(flood.arrived, AllCopies(stars, origin));
  }

  /** The copies on simple paths, spelled out. */
  lemma SimplePathSpelledOut(stars: Constellation, origin: StarKey, copy: Copy)
    ensures |copy.trail| >= 2 && SimplePath(stars, origin, copy.trail) && copy == CopyOn(copy.trail) <==>
            var trail, last := copy.trail, |copy.trail| - 1;
            && last > 0 && trail[0] == origin && trail[last] == copy.at
            && (forall i :: 0 <= i < last ==>
                  && trail[i] in stars && trail[i + 1] in stars[trail[i]].adjacents
                  && (i == 0 || stars[trail[i]].kind !in {Central, Machine}))
            && (forall i, j :: 0 <= i < j <= last ==> trail[i] != trail[j])
            && (forall k :: k in copy.ripple.history <==> exists i :: 0 <= i < last && trail[i] == k)
  {
    var trail, last := copy.trail, |copy.trail| - 1;
    if last > 0 {
      forall k
        ensures k in StarsOn(trail[..last]) <==> exists i :: 0 <= i < last && trail[i] == k
      {
        if i :| 0 <= i < last && trail[i] == k {
          assert trail[..last][i] == k;
        }
      }
      assert (forall k :: k in copy.ripple.history <==> k in StarsOn(trail[..last])) <==>
             copy.ripple.history == StarsOn(trail[..last]);
      forall i | 0 <= i < last && trail[0] == origin && Distinct(trail)
        ensures trail[i] == origin <==> i == 0
      {
      }
    }
  }

  /** The finished flood, spelled out: who gets which copies, by which stars, and what they carry. */
  lemma FloodInFull(stars: Constellation, origin: StarKey, copies: seq<Copy>, copy: Copy)
    requires KeysAgree(stars) && origin in stars && CanArrive(stars, Begin(stars, origin), copies)
    requires After(stars, Begin(stars, origin), copies).flying == {}
    ensures copy in After(stars, Begin(stars, origin), copies).arrived <==>
            var trail, last := copy.trail, |copy.trail| - 1;
            && last > 0 && trail[0] == origin && trail[last] == copy.at
            && (forall i :: 0 <= i < last ==>
                  && trail[i] in stars && trail[i + 1] in stars[trail[i]].adjacents
                  && (i == 0 || stars[trail[i]].kind !in {Central, Machine}))
            && (forall i, j :: 0 <= i < j <= last ==> trail[i] != trail[j])
            && (forall k :: k in copy.ripple.history <==> exists i :: 0 <= i < last && trail[i] == k)
  {
    FloodIsSimplePaths(stars, origin, copies);
    AllCopiesAreAll(stars, origin, copy);
    hide After, Begin, CanArrive, AllCopies, SimplePath, CopyOn;
    SimplePathSpelledOut(stars, origin, copy);
  }

  lemma CopiesOfFlood(stars: Constellation, origin: StarKey, flood: Flood)
    requires FloodInv(stars, origin, flood)
    ensures flood.arrived <= AllCopies(stars, origin)
    ensures forall copy :: copy in flood.flying + flood.arrived ==>
              copy in AllCopies(stars, origin) && copy.at !in copy.ripple.history
  {
    hide AllCopies, SimplePath, NoneForgotten;
    forall copy | copy in flood.flying + flood.arrived
      ensures copy in AllCopies(stars, origin) && copy.at !in copy.ripple.history
    {
      AllCopiesAreAll(stars, origin, copy);
      NeverReturns(stars, origin, copy.trail);
    }
  }

  lemma RestingFlood(stars: Constellation, origin: StarKey, flood: Flood)
    requires FloodInv(stars, origin, flood)
    ensures flood.flying == {} <==> flood.arrived == AllCopies(stars, origin)
  {
    CopiesOfFlood(stars, origin, flood);
    hide AllCopies, SimplePath, OnSimplePaths;
    if flood.flying == {} {
      forall copy | copy in AllCopies(stars, origin)
        ensures copy in flood.arrived
      {
        AllCopiesAreAll(stars, origin, copy);
        assert Pending(flood, copy.trail);
      }
    } else {
      var copy :| copy in flood.flying;
      assert copy in AllCopies(stars, origin) && copy !in flood.arrived;
    }
  }

  lemma NeverReturns(stars: Constellation, origin: StarKey, path: seq<StarKey>)
    requires |path| >= 2 && SimplePath(stars, origin, path)
    ensures CopyOn(path).at !in CopyOn(path).ripple.history
  {
  }

  // ---------------------------------------------------------------- coverage

  /** A walk can be cut down to a simple path. */
  lemma {:induction false} WalkToPath(stars: Constellation, origin: StarKey, walk: seq<StarKey>)
    returns (path: seq<StarKey>)
    requires Walk(stars, origin, walk)
    ensures SimplePath(stars, origin, path) && path[|path| - 1] == walk[|walk| - 1]
    decreases |walk|
  {
    var n := |walk|;
    if n == 1 {
      path := walk;
    } else {
      var star := walk[n - 1];
      assert Relays(stars, origin, walk[n - 2]) && walk[n - 2 + 1] in stars[walk[n - 2]].adjacents;
      var shorter := WalkToPath(stars, origin, walk[..n - 1]);
      if star in StarsOn(shorter) {
        var i :| 0 <= i < |shorter| && shorter[i] == star;
        PrefixOfPath(stars, origin, shorter, i + 1);
        path := shorter[..i + 1];
      } else {
        ExtendPath(stars, origin, shorter, star);
        path := shorter + [star];
      }
    }
  }

  /** When the flood is over, every star that can be reached through forwarders has got a copy. */
  lemma FloodReachesAll(stars: Constellation, origin: StarKey, copies: seq<Copy>, walk: seq<StarKey>)
    requires KeysAgree(stars) && origin in stars && CanArrive(stars, Begin(stars, origin), copies)
    requires After(stars, Begin(stars, origin), copies).flying == {}
    requires |walk| > 0 && walk[0] == origin && walk[|walk| - 1] != origin
    requires forall i :: 0 <= i < |walk| - 1 ==>
               && walk[i] in stars && walk[i + 1] in stars[walk[i]].adjacents
               && (walk[i] == origin || stars[walk[i]].kind !in {Central, Machine})
    ensures exists copy :: copy in After(stars, Begin(stars, origin), copies).arrived && copy.at == walk[|walk| - 1]
  {
    FloodIsSimplePaths(stars, origin, copies);
    var path := WalkToPath(stars, origin, walk);
    AllCopiesAreAll(stars, origin, CopyOn(path));
    assert CopyOn(path).at == walk[|walk| - 1];
  }
}
