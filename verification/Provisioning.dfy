/**
Provisioning: how a particle gets a star.  A point without a star is
provisioned by the star of its parent, so the parent is provisioned first.

SmartLocator is the locator of one star, alone with the registry; Provisioned
gives its closed form.  The step system below runs any number of locators and
answering stars against one registry.
 */
module Provisioning {
  import opened Outcomes
  import opened Points
  import opened Stars

  /** The registered points, with the star of those that have one. */
  type Records = map<Point, Option<StarKey>>

  datatype ProvisionErr = ExpectedRootProvisioned | NotFound | Refused

  datatype Request = Request(point: Point, to: StarKey)

  predicate Located(records: Records, point: Point) {
    point in records && records[point].Some?
  }

  /** The star that a request for the point ends up on; None if it is refused. */
  type Hosts = Point -> Option<StarKey>

  // ---------------------------------------------------------------- what is missing

  /** The points to provision, the outermost first: the point and its ancestors up to a located one. */
  function Missing(records: Records, point: Point): (r: Result<seq<Point>, ProvisionErr>)
    ensures r.Ok? ==> |r.value| > 0 && r.value[|r.value| - 1] == point
    decreases |point.segments|
  {
    match point.Parent()
    case None => Err(ExpectedRootProvisioned)
    case Some(parent) =>
      if parent !in records then Err(NotFound)
      else if records[parent].Some? then Ok([point])
      else
        match Missing(records, parent)
        case Err(err) => Err(err)
        case Ok(chain) => Ok(chain + [point])
  }

  lemma PrefixOfParent(point: Point, n: nat)
    requires n < |point.segments|
    ensures Prefix(point.Parent().value, n) == Prefix(point, n)
  {
    assert point.Parent().value.segments[..n] == point.segments[..n];
  }

  /** The missing points are those between the point and its nearest located ancestor. */
  lemma {:induction false} MissingIsGap(records: Records, point: Point)
    requires Missing(records, point).Ok?
    ensures var chain, n := Missing(records, point).value, |point.segments|;
            && 0 < |chain| <= n
            && Located(records, Prefix(point, n - |chain|))
            && (forall i :: 0 <= i < |chain| ==> chain[i] == Prefix(point, n - |chain| + 1 + i))
            && (forall i :: 0 <= i < |chain| - 1 ==> chain[i] in records && records[chain[i]].None?)
    decreases |point.segments|
  {
    var n := |point.segments|;
    var parent := point.Parent().value;
    assert Prefix(point, n) == point && Prefix(point, n - 1) == parent by {
      assert point.segments[..n] == point.segments;
    }
    hide Prefix;
    if records[parent].None? {
      MissingIsGap(records, parent);
      var chain, above := Missing(records, point).value, Missing(records, parent).value;
      forall i | 0 <= i < |above|
        ensures above[i] == Prefix(point, n - |chain| + 1 + i)
      {
        PrefixOfParent(point, n - |chain| + 1 + i);
      }
      PrefixOfParent(point, n - |chain|);
    }
  }

  /** The proper ancestors of the point from `m` segments on are registered and have no star. */
  predicate GapFrom(records: Records, point: Point, m: nat) {
    forall k | m <= k < |point.segments| :: Prefix(point, k) in records && records[Prefix(point, k)].None?
  }

  ghost predicate GapBelow(records: Records, point: Point, m: nat, located: bool) {
    && m < |point.segments|
    && GapFrom(records, point, m + 1)
    && if located then Located(records, Prefix(point, m)) else Prefix(point, m) !in records
  }

  lemma GapOfParent(records: Records, point: Point, m: nat, located: bool)
    requires |point.segments| > 0
    requires var parent := point.Parent().value; parent in records && records[parent].None?
    ensures GapBelow(records, point.Parent().value, m, located) <==> GapBelow(records, point, m, located)
    ensures GapFrom(records, point.Parent().value, m) <==> GapFrom(records, point, m)
  {
    var n, parent := |point.segments|, point.Parent().value;
    assert Prefix(point, n - 1) == parent;
    forall k: nat | k < n - 1
      ensures Prefix(parent, k) == Prefix(point, k)
    {
      PrefixOfParent(point, k);
    }
  }

  /**
  Exactly when the missing points are known, and when not: going up over points
  without a star, a located one is met, or one that is not registered, or none.
   */
  lemma {:induction false} MissingIff(records: Records, point: Point)
    ensures Missing(records, point).Ok? <==> exists m: nat :: GapBelow(records, point, m, true)
    ensures Missing(records, point) == Err(NotFound) <==> exists m: nat :: GapBelow(records, point, m, false)
    ensures Missing(records, point) == Err(ExpectedRootProvisioned) <==> GapFrom(records, point, 0)
    decreases |point.segments|
  {
    var n := |point.segments|;
    if n > 0 {
      var parent := point.Parent().value;
      assert Prefix(point, n - 1) == parent;
      if Located(records, parent) {
        assert GapBelow(records, point, n - 1, true);
        assert forall m: nat :: GapBelow(records, point, m, false) ==> m >= n - 1;
      } else if parent !in records {
        assert GapBelow(records, point, n - 1, false);
        assert forall m: nat :: GapBelow(records, point, m, true) ==> m >= n - 1;
      } else {
        MissingIff(records, parent);
        forall m: nat
          ensures GapBelow(records, parent, m, true) <==> GapBelow(records, point, m, true)
          ensures GapBelow(records, parent, m, false) <==> GapBelow(records, point, m, false)
          ensures GapFrom(records, parent, m) <==> GapFrom(records, point, m)
        {
          GapOfParent(records, point, m, true);
          GapOfParent(records, point, m, false);
        }
      }
    }
  }

  // ---------------------------------------------------------------- one locator

  /** How many of the chain are granted before the first refusal. */
  function Granted(records: Records, hosts: Hosts, chain: seq<Point>): (n: nat)
    ensures n <= |chain|
    ensures forall i :: 0 <= i < n ==> chain[i] in records && hosts(chain[i]).Some?
    ensures n < |chain| ==> chain[n] !in records || hosts(chain[n]).None?
  {
    if |chain| == 0 || chain[0] !in records || hosts(chain[0]).None? then 0
    else
      var n := Granted(records, hosts, chain[1..]) + 1;
      assert forall i :: 0 < i < n ==> chain[i] == chain[1..][i - 1];
      n
  }

  function WithHosts(records: Records, hosts: Hosts, chain: seq<Point>): Records
    requires forall i :: 0 <= i < |chain| ==> chain[i] in records
  {
    map p | p in records :: if p in chain then hosts(p) else records[p]
  }

  class SmartLocator {
    var records: Records
    // The provision requests sent, in order.
    var requests: seq<Request>

    constructor (records: Records)
      ensures this.records == records && requests == []
    {
      this.records, requests := records, [];
    }

    /** The star asked to provision: it assigns a star in the registry before it replies with it. */
    method Ask(point: Point, to: StarKey, hosts: Hosts) returns (r: Result<StarKey, ProvisionErr>)
      modifies this
      ensures requests == old(requests) + [Request(point, to)]
      ensures (r, records) == Reply(old(records), hosts, point)
      ensures point in old(records) && hosts(point).Some? ==>
                r == Ok(hosts(point).value) && records == old(records)[point := hosts(point)]
      ensures point !in old(records) || hosts(point).None? ==> r == Err(Refused) && records == old(records)
    {
      requests := requests + [Request(point, to)];
      r := Err(Refused);
      if point in records {
        var host := hosts(point);
        if host.Some? {
          records := records[point := host];
          r := Ok(host.value);
        }
      }
    }

    method Locate(point: Point, hosts: Hosts) returns (r: Result<StarKey, ProvisionErr>)
      modifies this
      ensures point !in old(records) ==> r == Err(NotFound) && records == old(records) && requests == old(requests)
      ensures Located(old(records), point) ==>
                r == Ok(old(records)[point].value) && records == old(records) && requests == old(requests)
      ensures point in old(records) && old(records)[point].None? ==>
                old(requests) <= requests
                && Provisioned(old(records), hosts, point, records, requests[|old(requests)|..], r)
    {
      if point !in records {
        return Err(NotFound);
      }
      if records[point].Some? {
        return Ok(records[point].value);
      }
      r := ProvisionInner(point, hosts);
    }

    method ProvisionInner(point: Point, hosts: Hosts) returns (r: Result<StarKey, ProvisionErr>)
      modifies this
      decreases |point.segments|
      ensures old(requests) <= requests
      ensures Provisioned(old(records), hosts, point, records, requests[|old(requests)|..], r)
    {
      hide Provisioned, Reply;
      ghost var before, asked := records, requests;
      var parent := point.Parent();
      if parent.None? || parent.value !in records {
        r := Err(if parent.None? then ExpectedRootProvisioned else NotFound);
        CannotStart(before, hosts, point);
        assert requests[|asked|..] == [];
        return;
      }
      var parentStar := records[parent.value];
      if parentStar.None? {
        r := ProvisionInner(parent.value, hosts);
        ghost var mid, sent := records, requests[|asked|..];
        if r.Err? {
          FailedAbove(before, hosts, point, mid, sent, r);
          return;
        }
        AboveIsLocated(before, hosts, point, mid, sent, r);
        parentStar := records[parent.value];
        AskedBelow(before, hosts, point, mid, sent, r);
        r := Ask(point, parentStar.value, hosts);
        assert requests[|asked|..] == sent + [Request(point, parentStar.value)];
      } else {
        AskedAlone(before, hosts, point);
        r := Ask(point, parentStar.value, hosts);
        assert requests[|asked|..] == [Request(point, parentStar.value)];
      }
    }
  }

  // ---------------------------------------------------------------- the closed form

  /** The answer to a request, and the registry after it. */
  function Reply(records: Records, hosts: Hosts, point: Point): (Result<StarKey, ProvisionErr>, Records) {
    if point in records && hosts(point).Some? then (Ok(hosts(point).value), records[point := hosts(point)])
    else (Err(Refused), records)
  }

  /** Requests for the first points of the chain, each to the star its parent has. */
  predicate ParentsFirst(sent: seq<Request>, chain: seq<Point>, records: Records) {
    && |sent| <= |chain|
    && forall i | 0 <= i < |sent| ::
         && sent[i].point == chain[i]
         && chain[i].Parent().Some?
         && Located(records, chain[i].Parent().value)
         && sent[i].to == records[chain[i].Parent().value].value
  }

  /**
  What provisioning a point does.  If its chain of missing points is known the
  requests go out for them in order, up to and including the first that is
  refused; those granted get their hosts.  Otherwise nothing happens.
   */
  predicate Provisioned(before: Records, hosts: Hosts, point: Point,
                        after: Records, sent: seq<Request>, r: Result<StarKey, ProvisionErr>) {
    match Missing(before, point)
    case Err(err) => r == Err(err) && after == before && sent == []
    case Ok(chain) =>
      var n := Granted(before, hosts, chain);
      && after == WithHosts(before, hosts, chain[..n])
      && (if n == |chain| then r == Ok(hosts(point).value) && |sent| == n else r == Err(Refused) && |sent| == n + 1)
      && ParentsFirst(sent, chain, after)
  }

  /** The points of the path from `m + 1` to `k` segments are registered and get a host. */
  predicate GetHosts(records: Records, hosts: Hosts, point: Point, m: nat, k: nat)
    requires k <= |point.segments|
  {
    forall j | m < j <= k :: Prefix(point, j) in records && hosts(Prefix(point, j)).Some?
  }

  lemma GapIsUnique(records: Records, point: Point, m: nat, n: nat)
    requires GapBelow(records, point, m, true) && GapBelow(records, point, n, true)
    ensures m == n
  {
  }

  lemma GapIsChain(records: Records, point: Point, m: nat)
    requires GapBelow(records, point, m, true)
    ensures Missing(records, point).Ok? && |Missing(records, point).value| == |point.segments| - m
    ensures forall i :: 0 <= i < |point.segments| - m ==> Missing(records, point).value[i] == Prefix(point, m + 1 + i)
  {
    MissingIff(records, point);
    MissingIsGap(records, point);
    hide Missing, Prefix;
    var chain := Missing(records, point).value;
    var n := |point.segments| - |chain|;
    assert GapFrom(records, point, n + 1) by {
      forall k | n + 1 <= k < |point.segments|
        ensures Prefix(point, k) in records && records[Prefix(point, k)].None?
      {
        assert chain[k - n - 1] == Prefix(point, k);
      }
    }
    GapIsUnique(records, point, m, n);
  }

  lemma GrantedIsPrefix(records: Records, hosts: Hosts, point: Point, m: nat, chain: seq<Point>)
    requires m + |chain| == |point.segments|
    requires forall i :: 0 <= i < |chain| ==> chain[i] == Prefix(point, m + 1 + i)
    ensures forall k :: m <= k <= |point.segments| ==>
              (GetHosts(records, hosts, point, m, k) <==> k - m <= Granted(records, hosts, chain))
  {
    hide Prefix;
    var n := Granted(records, hosts, chain);
    forall k | m <= k <= |point.segments|
      ensures GetHosts(records, hosts, point, m, k) <==> k - m <= n
    {
      if k - m <= n {
        forall j | m < j <= k
          ensures Prefix(point, j) in records && hosts(Prefix(point, j)).Some?
        {
          assert chain[j - m - 1] == Prefix(point, j);
        }
      } else {
        assert chain[n] == Prefix(point, m + 1 + n);
      }
    }
  }

  /** The records after the first `granted` points of the path below `m` have got their hosts. */
  lemma RecordsBelow(before: Records, hosts: Hosts, point: Point, m: nat, chain: seq<Point>, granted: nat)
    requires m + |chain| == |point.segments| && granted <= |chain|
    requires forall i :: 0 <= i < |chain| ==> chain[i] == Prefix(point, m + 1 + i)
    requires forall i :: 0 <= i < granted ==> chain[i] in before
    ensures var after := WithHosts(before, hosts, chain[..granted]);
            && after.Keys == before.Keys
            && (forall k :: m < k <= m + granted ==>
                  Prefix(point, k) in after && after[Prefix(point, k)] == hosts(Prefix(point, k)))
            && (forall p :: p in before && after[p] != before[p] ==>
                  exists k :: m < k <= m + granted && p == Prefix(point, k))
  {
    hide Prefix;
    var after := WithHosts(before, hosts, chain[..granted]);
    forall k | m < k <= m + granted
      ensures Prefix(point, k) in after && after[Prefix(point, k)] == hosts(Prefix(point, k))
    {
      assert chain[..granted][k - m - 1] == Prefix(point, k);
    }
    forall p | p in before && after[p] != before[p]
      ensures exists k :: m < k <= m + granted && p == Prefix(point, k)
    {
      var i :| 0 <= i < granted && chain[i] == p;
      assert p == Prefix(point, m + 1 + i);
    }
  }

  lemma RequestsBelow(point: Point, m: nat, chain: seq<Point>, sent: seq<Request>, after: Records)
    requires m + |chain| == |point.segments|
    requires forall i :: 0 <= i < |chain| ==> chain[i] == Prefix(point, m + 1 + i)
    requires ParentsFirst(sent, chain, after)
    ensures |sent| <= |chain|
    ensures forall i :: 0 <= i < |sent| ==>
              && sent[i].point == Prefix(point, m + 1 + i)
              && Prefix(point, m + i) in after && after[Prefix(point, m + i)] == Some(sent[i].to)
  {
    forall i | 0 <= i < |sent|
      ensures sent[i].point == Prefix(point, m + 1 + i)
      ensures Prefix(point, m + i) in after && after[Prefix(point, m + i)] == Some(sent[i].to)
    {
      assert point.segments[..m + 1 + i][..m + i] == point.segments[..m + i];
      assert chain[i].Parent() == Some(Prefix(point, m + i));
    }
  }

  /** The number of points granted decides it all. */
  lemma ProvisionedBelow(before: Records, hosts: Hosts, point: Point, m: nat,
                         after: Records, sent: seq<Request>, r: Result<StarKey, ProvisionErr>)
    returns (granted: nat)
    requires GapBelow(before, point, m, true) && Provisioned(before, hosts, point, after, sent, r)
    ensures m < |point.segments| && granted <= |point.segments| - m
    ensures forall k :: m <= k <= |point.segments| ==> (GetHosts(before, hosts, point, m, k) <==> k - m <= granted)
    ensures if granted == |point.segments| - m then r.Ok? && hosts(point) == Some(r.value) && |sent| == granted
            else r == Err(Refused) && |sent| == granted + 1
    ensures after.Keys == before.Keys
    ensures forall k :: m < k <= m + granted ==>
              Prefix(point, k) in after && after[Prefix(point, k)] == hosts(Prefix(point, k))
    ensures forall p :: p in before && after[p] != before[p] ==>
              exists k :: m < k <= m + granted && p == Prefix(point, k)
    ensures forall i :: 0 <= i < |sent| ==>
              && sent[i].point == Prefix(point, m + 1 + i)
              && Prefix(point, m + i) in after && after[Prefix(point, m + i)] == Some(sent[i].to)
  {
    GapIsChain(before, point, m);
    var chain := Missing(before, point).value;
    granted := Granted(before, hosts, chain);
    assert chain[|chain| - 1] == point;
    assert ParentsFirst(sent, chain, after) && after == WithHosts(before, hosts, chain[..granted]);
    hide Missing, GapBelow, WithHosts, ParentsFirst, GetHosts, Granted, Provisioned;
    GrantedIsPrefix(before, hosts, point, m, chain);
    RecordsBelow(before, hosts, point, m, chain, granted);
    RequestsBelow(point, m, chain, sent, after);
  }

  /**
  Provisioning a point below its nearest located ancestor, point by point.  It
  ends well exactly when every point in between is registered and gets a host;
  the points before the first refusal have their hosts then, and no other record
  changes; each was asked for once, in order, of the star its parent has.
   */
  lemma ProvisionedInFull(before: Records, hosts: Hosts, point: Point, m: nat,
                          after: Records, sent: seq<Request>, r: Result<StarKey, ProvisionErr>)
    requires GapBelow(before, point, m, true) && Provisioned(before, hosts, point, after, sent, r)
    ensures var n := |point.segments|;
            && (if GetHosts(before, hosts, point, m, n) then r.Ok? && hosts(point) == Some(r.value)
                else r == Err(Refused))
            && after.Keys == before.Keys
            && (forall k :: m < k <= n && GetHosts(before, hosts, point, m, k) ==>
                  Prefix(point, k) in after && after[Prefix(point, k)] == hosts(Prefix(point, k)))
            && (forall p :: p in before && after[p] != before[p] ==>
                  exists k :: m < k <= n && GetHosts(before, hosts, point, m, k) && p == Prefix(point, k))
            && 0 < |sent| <= n - m
            && GetHosts(before, hosts, point, m, m + |sent| - 1)
            && (|sent| < n - m ==> !GetHosts(before, hosts, point, m, m + |sent|))
            && (forall i :: 0 <= i < |sent| ==>
                  && sent[i].point == Prefix(point, m + 1 + i)
                  && Prefix(point, m + i) in after && after[Prefix(point, m + i)] == Some(sent[i].to))
  {
    hide *;
    var granted := ProvisionedBelow(before, hosts, point, m, after, sent, r);
  }

  lemma CannotStart(before: Records, hosts: Hosts, point: Point)
    requires point.Parent().None? || point.Parent().value !in before
    ensures Provisioned(before, hosts, point, before, [],
                        Err(if point.Parent().None? then ExpectedRootProvisioned else NotFound))
  {
  }

  lemma AskedAlone(before: Records, hosts: Hosts, point: Point)
    requires point.Parent().Some? && Located(before, point.Parent().value)
    ensures var (r, after) := Reply(before, hosts, point);
            Provisioned(before, hosts, point, after, [Request(point, before[point.Parent().value].value)], r)
  {
    var n := Granted(before, hosts, [point]);
    assert n == 1 ==> [point][..n] == [point];
    assert n == 0 ==> WithHosts(before, hosts, [point][..n]) == before;
  }

  lemma {:induction false} GrantedMore(records: Records, hosts: Hosts, chain: seq<Point>, point: Point)
    ensures var n := Granted(records, hosts, chain);
            Granted(records, hosts, chain + [point]) ==
            if n < |chain| then n
            else if point in records && hosts(point).Some? then n + 1
            else n
  {
    if |chain| == 0 {
      assert chain + [point] == [point] && [point][1..] == [];
    } else {
      assert (chain + [point])[0] == chain[0] && (chain + [point])[1..] == chain[1..] + [point];
      GrantedMore(records, hosts, chain[1..], point);
    }
  }

  lemma FailedAbove(before: Records, hosts: Hosts, point: Point, mid: Records, sent: seq<Request>,
                    r: Result<StarKey, ProvisionErr>)
    requires point.Parent().Some? && point.Parent().value in before && before[point.Parent().value].None?
    requires Provisioned(before, hosts, point.Parent().value, mid, sent, r) && r.Err?
    ensures Provisioned(before, hosts, point, mid, sent, r)
  {
    match Missing(before, point.Parent().value) {
      case Err(_) =>
      case Ok(shorter) =>
        var n := Granted(before, hosts, shorter);
        GrantedMore(before, hosts, shorter, point);
        assert (shorter + [point])[..n] == shorter[..n];
    }
  }

  lemma AboveIsLocated(before: Records, hosts: Hosts, point: Point, mid: Records, sent: seq<Request>,
                       r: Result<StarKey, ProvisionErr>)
    requires point.Parent().Some?
    requires Provisioned(before, hosts, point.Parent().value, mid, sent, r) && r.Ok?
    ensures Located(mid, point.Parent().value) && mid[point.Parent().value] == Some(r.value)
  {
    var parent := point.Parent().value;
    var shorter := Missing(before, parent).value;
    assert shorter[..|shorter|] == shorter;
    assert shorter[|shorter| - 1] == parent;
  }

  lemma HostsBelow(before: Records, hosts: Hosts, shorter: seq<Point>, point: Point)
    requires Granted(before, hosts, shorter) == |shorter|
    ensures var (r, after) := Reply(WithHosts(before, hosts, shorter), hosts, point);
            var chain := shorter + [point];
            && after == WithHosts(before, hosts, chain[..Granted(before, hosts, chain)])
            && (if r.Ok? then Granted(before, hosts, chain) == |chain| else Granted(before, hosts, chain) == |shorter|)
            && (r == if r.Ok? then Ok(hosts(point).value) else Err(Refused))
  {
    var chain, n := shorter + [point], |shorter|;
    GrantedMore(before, hosts, shorter, point);
    hide Granted;
    assert chain[..n] == shorter;
    assert chain[..n + 1] == chain;
  }

  lemma OneMoreAsked(sent: seq<Request>, shorter: seq<Point>, mid: Records, point: Point, hosts: Hosts)
    requires ParentsFirst(sent, shorter, mid) && |sent| == |shorter|
    requires forall i :: 0 <= i < |shorter| ==> |shorter[i].segments| < |point.segments|
    requires point.Parent().Some? && Located(mid, point.Parent().value)
    ensures ParentsFirst(sent + [Request(point, mid[point.Parent().value].value)], shorter + [point],
                         Reply(mid, hosts, point).1)
  {
    var after := Reply(mid, hosts, point).1;
    forall p: Point | |p.segments| < |point.segments| && Located(mid, p)
      ensures Located(after, p) && after[p] == mid[p]
    {
    }
  }

  /** Asking for the point itself, once its parent has been provisioned. */
  lemma AskedBelow(before: Records, hosts: Hosts, point: Point, mid: Records, sent: seq<Request>,
                   above: Result<StarKey, ProvisionErr>)
    requires point.Parent().Some? && point.Parent().value in before && before[point.Parent().value].None?
    requires Provisioned(before, hosts, point.Parent().value, mid, sent, above) && above.Ok?
    requires Located(mid, point.Parent().value)
    ensures var (r, after) := Reply(mid, hosts, point);
            Provisioned(before, hosts, point, after, sent + [Request(point, mid[point.Parent().value].value)], r)
  {
    var shorter := AllGranted(before, hosts, point, mid, sent, above);
    hide Missing, Granted, Reply, WithHosts, ParentsFirst;
    HostsBelow(before, hosts, shorter, point);
    OneMoreAsked(sent, shorter, mid, point, hosts);
  }

  lemma MissingIsShorter(records: Records, point: Point)
    requires Missing(records, point).Ok?
    ensures forall i :: 0 <= i < |Missing(records, point).value| ==>
              |Missing(records, point).value[i].segments| <= |point.segments|
  {
    MissingIsGap(records, point);
  }

  lemma AllGranted(before: Records, hosts: Hosts, point: Point, mid: Records, sent: seq<Request>,
                   above: Result<StarKey, ProvisionErr>)
    returns (shorter: seq<Point>)
    requires point.Parent().Some? && point.Parent().value in before && before[point.Parent().value].None?
    requires Provisioned(before, hosts, point.Parent().value, mid, sent, above) && above.Ok?
    ensures Missing(before, point) == Ok(shorter + [point])
    ensures Granted(before, hosts, shorter) == |shorter| == |sent|
    ensures mid == WithHosts(before, hosts, shorter) && ParentsFirst(sent, shorter, mid)
    ensures forall i :: 0 <= i < |shorter| ==> |shorter[i].segments| < |point.segments|
  {
    shorter := Missing(before, point.Parent().value).value;
    assert shorter[..|shorter|] == shorter;
    MissingIsShorter(before, point.Parent().value);
  }

  // ---------------------------------------------------------------- many locators at once

  /** What the innermost call of a locator is about to do. */
  datatype Pc =
    | CheckParent
    | ParentProvisioned
    | AwaitReply(to: StarKey)
    | Replied(host: StarKey)

  /** A provisioning task: the points of its nested calls, the first called first. */
  datatype Task =
    | Running(calls: seq<Point>, pc: Pc)
    | Finished(point: Point, r: Result<StarKey, ProvisionErr>)

  datatype World = World(records: Records, tasks: seq<Task>)

  datatype Step =
    | Register(point: Point)
    | Start(point: Point)
    | Continue(i: nat)
    | Assign(i: nat, host: StarKey)
    | Refuse(i: nat)

  function Top(calls: seq<Point>): Point
    requires |calls| > 0
  {
    calls[|calls| - 1]
  }

  predicate IsRunning(world: World, i: nat) {
    i < |world.tasks| && world.tasks[i].Running? && |world.tasks[i].calls| > 0
  }

  /** The parent's star has been asked and has not answered; it must know the point to grant it. */
  predicate Asked(world: World, i: nat) {
    IsRunning(world, i) && world.tasks[i].pc.AwaitReply?
  }

  predicate Enabled(world: World, step: Step) {
    match step
    case Register(_) => true
    case Start(point) => point in world.records
    case Continue(i) =>
      && IsRunning(world, i) && !world.tasks[i].pc.AwaitReply?
      && (world.tasks[i].pc.ParentProvisioned? ==>
            && Top(world.tasks[i].calls).Parent().Some?
            && Located(world.records, Top(world.tasks[i].calls).Parent().value))
    case Assign(i, _) => Asked(world, i) && Top(world.tasks[i].calls) in world.records
    case Refuse(i) => Asked(world, i)
  }

  /**
  One locator goes on, up to its next message.  After the parent has been
  provisioned its record is read again and its star taken out of it.
   */
  function Proceed(records: Records, calls: seq<Point>, pc: Pc): Task
    requires |calls| > 0 && !pc.AwaitReply?
    requires pc.ParentProvisioned? ==> Top(calls).Parent().Some? && Located(records, Top(calls).Parent().value)
  {
    match pc
    case CheckParent =>
      (match Top(calls).Parent()
       case None => Finished(calls[0], Err(ExpectedRootProvisioned))
       case Some(parent) =>
         if parent !in records then Finished(calls[0], Err(NotFound))
         else if records[parent].None? then Running(calls + [parent], CheckParent)
         else Running(calls, AwaitReply(records[parent].value)))
    case ParentProvisioned => Running(calls, AwaitReply(records[Top(calls).Parent().value].value))
    case Replied(host) =>
      if |calls| == 1 then Finished(calls[0], Ok(host)) else Running(calls[..|calls| - 1], ParentProvisioned)
  }

  function Apply(world: World, step: Step): World
    requires Enabled(world, step)
  {
    match step
    case Register(point) => if point in world.records then world else world.(records := world.records[point := None])
    case Start(point) =>
      world.(tasks := world.tasks + [if world.records[point].Some? then Finished(point, Ok(world.records[point].value))
                                     else Running([point], CheckParent)])
    case Continue(i) =>
      world.(tasks := world.tasks[i := Proceed(world.records, world.tasks[i].calls, world.tasks[i].pc)])
    case Assign(i, host) =>
      var task := world.tasks[i];
      World(world.records[Top(task.calls) := Some(host)], world.tasks[i := Running(task.calls, Replied(host))])
    case Refuse(i) => world.(tasks := world.tasks[i := Finished(world.tasks[i].calls[0], Err(Refused))])
  }

  predicate AllEnabled(world: World, steps: seq<Step>)
    decreases steps
  {
    |steps| == 0 || (Enabled(world, steps[0]) && AllEnabled(Apply(world, steps[0]), steps[1..]))
  }

  function Run(world: World, steps: seq<Step>): World
    requires AllEnabled(world, steps)
    decreases steps
  {
    if |steps| == 0 then world else Run(Apply(world, steps[0]), steps[1..])
  }

  /** Every located point but a root has a located parent. */
  ghost predicate AncestorClosed(records: Records) {
    forall p :: Located(records, p) && p.Parent().Some? ==> Located(records, p.Parent().value)
  }

  /** Nested calls climb from parent to parent. */
  predicate Climbs(calls: seq<Point>) {
    forall i | 0 <= i < |calls| - 1 :: calls[i].Parent() == Some(calls[i + 1])
  }

  predicate TaskOk(records: Records, task: Task) {
    match task
    case Running(calls, pc) =>
      && |calls| > 0 && Climbs(calls)
      && (!pc.CheckParent? ==> Top(calls).Parent().Some? && Located(records, Top(calls).Parent().value))
      && (pc.Replied? ==> Located(records, Top(calls)))
    case Finished(point, r) => r.Ok? ==> Located(records, point)
  }

  ghost predicate WorldInv(world: World) {
    && AncestorClosed(world.records)
    && forall i :: 0 <= i < |world.tasks| ==> TaskOk(world.records, world.tasks[i])
  }

  lemma ProceedIsOk(records: Records, calls: seq<Point>, pc: Pc)
    requires TaskOk(records, Running(calls, pc)) && !pc.AwaitReply?
    ensures TaskOk(records, Proceed(records, calls, pc))
  {
    if pc.Replied? && |calls| > 1 {
      assert calls[|calls| - 2].Parent() == Some(calls[|calls| - 1]);
    }
  }

  lemma StepKeepsInv(world: World, step: Step)
    requires WorldInv(world) && Enabled(world, step)
    ensures WorldInv(Apply(world, step))
  {
    match step {
      case Register(point) =>
      case Start(point) =>
      case Continue(i) => ProceedIsOk(world.records, world.tasks[i].calls, world.tasks[i].pc);
      case Assign(i, host) => assert TaskOk(world.records, world.tasks[i]);
      case Refuse(i) =>
    }
  }

  /**
  What a step changes.  A record is only made by registering its point, without
  a star, and only changed by a star that grants a request for it; of the tasks
  it changes one at most.
   */
  lemma StepChanges(world: World, step: Step, p: Point, j: nat)
    requires Enabled(world, step)
    ensures var next := Apply(world, step);
            && (p in world.records
                && step.Assign? && world.tasks[step.i].calls[|world.tasks[step.i].calls| - 1] == p ==>
                  p in next.records && next.records[p] == Some(step.host)
                  && next.tasks[step.i] == Running(world.tasks[step.i].calls, Replied(step.host)))
            && (p in world.records
                && !(step.Assign? && world.tasks[step.i].calls[|world.tasks[step.i].calls| - 1] == p) ==>
                  p in next.records && next.records[p] == world.records[p])
            && (p !in world.records ==> (p in next.records <==> step == Register(p)))
            && (p !in world.records && step == Register(p) ==> next.records[p] == None)
            && |next.tasks| == |world.tasks| + (if step.Start? then 1 else 0)
            && (j < |world.tasks| && step !in {Continue(j), Refuse(j)} && !(step.Assign? && step.i == j) ==>
                  next.tasks[j] == world.tasks[j])
            && (step == Start(p) ==>
                  next.tasks[|world.tasks|] ==
                  if world.records[p].Some? then Finished(p, Ok(world.records[p].value)) else Running([p], CheckParent))
            && (step == Refuse(j) ==> next.tasks[j] == Finished(world.tasks[j].calls[0], Err(Refused)))
  {
  }

  /** A request is only ever sent to the star the parent has at that moment, for the innermost point. */
  lemma AsksParentStar(world: World, step: Step, i: nat)
    requires Enabled(world, step) && i < |world.tasks|
    requires var next := Apply(world, step).tasks[i];
             next.Running? && next.pc.AwaitReply? && next != world.tasks[i]
    ensures var next := Apply(world, step).tasks[i];
            && step == Continue(i)
            && world.tasks[i].Running? && next.calls == world.tasks[i].calls
            && var point := next.calls[|next.calls| - 1];
            && |point.segments| > 0
            && var parent := PointDef(point.route, point.segments[..|point.segments| - 1]);
            && parent in world.records && world.records[parent] == Some(next.pc.to)
  {
  }

  /** The steps whose enabling is not for the model to assume: a locator is never stuck. */
  lemma UnwrapIsSafe(world: World, i: nat)
    requires WorldInv(world) && i < |world.tasks| && world.tasks[i].Running? && !world.tasks[i].pc.AwaitReply?
    ensures Enabled(world, Continue(i))
  {
    assert TaskOk(world.records, world.tasks[i]);
  }

  /**
  Under any interleaving of locators and answering stars the located points
  stay closed under parents, once located a point stays so, and a parent's star
  is there whenever it is taken out of the record.
   */
  lemma {:induction false} EveryRunStaysClosed(world: World, steps: seq<Step>)
    requires WorldInv(world) && AllEnabled(world, steps)
    ensures WorldInv(Run(world, steps))
    ensures forall p :: Located(world.records, p) ==> Located(Run(world, steps).records, p)
    decreases steps
  {
    if |steps| > 0 {
      StepKeepsInv(world, steps[0]);
      var next := Apply(world, steps[0]);
      assert forall p :: Located(world.records, p) ==> Located(next.records, p);
      EveryRunStaysClosed(next, steps[1..]);
    }
  }

  /** Nested calls are as deep as the first point is at most. */
  lemma {:induction false} CallsAreShallow(calls: seq<Point>, i: nat)
    requires Climbs(calls) && i < |calls|
    ensures i <= |calls[0].segments| && calls[i] == Prefix(calls[0], |calls[0].segments| - i)
  {
    if i == 0 {
      assert calls[0].segments[..|calls[0].segments|] == calls[0].segments;
    } else {
      CallsAreShallow(calls, i - 1);
      assert calls[i - 1].Parent() == Some(calls[i - 1 + 1]);
      var n := |calls[0].segments|;
      assert calls[0].segments[..n - i + 1][..n - i] == calls[0].segments[..n - i];
    }
  }

  /** In a closed registry every ancestor of a located point is located. */
  lemma {:induction false} AncestorsLocated(records: Records, point: Point, n: nat)
    requires AncestorClosed(records) && Located(records, point) && n <= |point.segments|
    ensures Located(records, Prefix(point, n))
    decreases |point.segments| - n
  {
    if n == |point.segments| {
      assert point.segments[..n] == point.segments;
      assert Prefix(point, n) == point;
    } else {
      AncestorsLocated(records, point, n + 1);
      assert Prefix(point, n + 1).segments[..n] == point.segments[..n];
      assert Prefix(point, n + 1).Parent() == Some(Prefix(point, n));
    }
  }

  /** So a task that ends well leaves the whole path to its point located. */
  lemma FinishedTaskHasPath(world: World, steps: seq<Step>, i: nat, n: nat)
    requires WorldInv(world) && AllEnabled(world, steps)
    requires i < |Run(world, steps).tasks|
    requires Run(world, steps).tasks[i].Finished? && Run(world, steps).tasks[i].r.Ok?
    requires n <= |Run(world, steps).tasks[i].point.segments|
    ensures Located(Run(world, steps).records, Prefix(Run(world, steps).tasks[i].point, n))
  {
    EveryRunStaysClosed(world, steps);
    var after := Run(world, steps);
    assert TaskOk(after.records, after.tasks[i]);
    AncestorsLocated(after.records, after.tasks[i].point, n);
  }

  // ---------------------------------------------------------------- how deep the calls go

  /** All calls but the first are for points that were not located then. */
  predicate CallsUnlocated(earlier: Records, task: Task) {
    task.Running? ==> forall i | 0 < i < |task.calls| :: !Located(earlier, task.calls[i])
  }

  /** The nested calls of a task stop below the nearest ancestor that was located before it started. */
  lemma CallsStayBelowLocated(world: World, steps: seq<Step>, i: nat)
    requires WorldInv(world) && AllEnabled(world, steps)
    requires |world.tasks| <= i < |Run(world, steps).tasks| && Run(world, steps).tasks[i].Running?
    ensures var calls := Run(world, steps).tasks[i].calls;
            && |calls| > 0
            && forall n: nat :: n < |calls[0].segments| && Located(world.records, Prefix(calls[0], n)) ==>
                 |calls| <= |calls[0].segments| - n
  {
    EveryRunStaysClosed(world, steps);
    var calls := Run(world, steps).tasks[i].calls;
    assert TaskOk(Run(world, steps).records, Run(world, steps).tasks[i]);
    NewTasksUnlocated(world.records, world, steps, |world.tasks|);
    hide Run, AllEnabled, WorldInv;
    forall n: nat | n < |calls[0].segments| && Located(world.records, Prefix(calls[0], n))
      ensures |calls| <= |calls[0].segments| - n
    {
      var depth := |calls[0].segments| - n;
      if depth < |calls| {
        CallsAreShallow(calls, depth);
        assert false;
      }
    }
  }

  lemma {:induction false} NewTasksUnlocated(earlier: Records, world: World, steps: seq<Step>, from: nat)
    requires AllEnabled(world, steps) && from <= |world.tasks|
    requires forall p :: Located(earlier, p) ==> Located(world.records, p)
    requires forall i :: from <= i < |world.tasks| ==> CallsUnlocated(earlier, world.tasks[i])
    ensures forall i :: from <= i < |Run(world, steps).tasks| ==> CallsUnlocated(earlier, Run(world, steps).tasks[i])
    decreases steps
  {
    if |steps| > 0 {
      NewTasksUnlocated(earlier, Apply(world, steps[0]), steps[1..], from);
    }
  }

  // ---------------------------------------------------------------- termination

  /** An upper bound on the steps a task can still take: up to the root and down again. */
  function TaskWork(task: Task): nat {
    match task
    case Finished(_, _) => 0
    case Running(calls, pc) =>
      if |calls| == 0 then 0
      else
        match pc
        case CheckParent => 4 * |Top(calls).segments| + 3 * |calls| + 1
        case ParentProvisioned => 3 * |calls| + 1
        case AwaitReply(_) => 3 * |calls|
        case Replied(_) => 3 * |calls| - 1
  }

  function TotalWork(tasks: seq<Task>): nat {
    if |tasks| == 0 then 0 else TaskWork(tasks[0]) + TotalWork(tasks[1..])
  }

  lemma {:induction false} TotalWorkUpdate(tasks: seq<Task>, i: nat, task: Task)
    requires i < |tasks|
    ensures TotalWork(tasks[i := task]) == TotalWork(tasks) - TaskWork(tasks[i]) + TaskWork(task)
  {
    if i > 0 {
      TotalWorkUpdate(tasks[1..], i - 1, task);
      assert tasks[i := task][1..] == tasks[1..][i - 1 := task];
    } else {
      assert tasks[i := task][1..] == tasks[1..];
    }
  }

  lemma {:induction false} TotalWorkAppend(tasks: seq<Task>, task: Task)
    ensures TotalWork(tasks + [task]) == TotalWork(tasks) + TaskWork(task)
  {
    if |tasks| == 0 {
      assert [task][1..] == [];
    } else {
      assert (tasks + [task])[1..] == tasks[1..] + [task];
      TotalWorkAppend(tasks[1..], task);
    }
  }

  /** What a step may add: a task may climb to the root and come down again. */
  function Allowance(step: Step): nat {
    match step
    case Register(_) => 1
    case Start(point) => 4 * |point.segments| + 5
    case _ => 0
  }

  function Budget(steps: seq<Step>): nat {
    if |steps| == 0 then 0 else Allowance(steps[0]) + Budget(steps[1..])
  }

  lemma ProceedLessWork(records: Records, task: Task)
    requires task.Running? && |task.calls| > 0 && !task.pc.AwaitReply?
    requires task.pc.ParentProvisioned? ==>
               Top(task.calls).Parent().Some? && Located(records, Top(task.calls).Parent().value)
    ensures TaskWork(Proceed(records, task.calls, task.pc)) < TaskWork(task)
  {
  }

  lemma StepLessWork(world: World, step: Step)
    requires Enabled(world, step)
    ensures TotalWork(Apply(world, step).tasks) < TotalWork(world.tasks) + Allowance(step)
  {
    hide TotalWork, Proceed;
    match step {
      case Register(_) =>
      case Start(point) => TotalWorkAppend(world.tasks, Apply(world, step).tasks[|world.tasks|]);
      case Continue(i) =>
        ProceedLessWork(world.records, world.tasks[i]);
        TotalWorkUpdate(world.tasks, i, Apply(world, step).tasks[i]);
      case Assign(i, _) => TotalWorkUpdate(world.tasks, i, Apply(world, step).tasks[i]);
      case Refuse(i) => TotalWorkUpdate(world.tasks, i, Apply(world, step).tasks[i]);
    }
  }

  /** A run takes boundedly many steps for each point that is asked for, whatever the interleaving. */
  lemma {:induction false} RunsAreBounded(world: World, steps: seq<Step>)
    requires AllEnabled(world, steps)
    ensures |steps| <= TotalWork(world.tasks) + Budget(steps)
    decreases steps
  {
    if |steps| > 0 {
      hide Apply, Enabled, TotalWork;
      StepLessWork(world, steps[0]);
      RunsAreBounded(Apply(world, steps[0]), steps[1..]);
    }
  }

  // ---------------------------------------------------------------- whether an answer stays the record

  /** The steps lead from one world to the other. */
  ghost predicate Goes(world: World, steps: seq<Step>, to: World) {
    AllEnabled(world, steps) && Run(world, steps) == to
  }

  lemma GoesOne(world: World, step: Step, to: World)
    requires Enabled(world, step) && Apply(world, step) == to
    ensures Goes(world, [step], to)
  {
    hide Apply, Enabled;
    assert [step][1..] == [];
    assert AllEnabled(to, []) && Run(to, []) == to;
  }

  lemma {:induction false} GoesConcat(world: World, a: seq<Step>, mid: World, b: seq<Step>, to: World)
    requires Goes(world, a, mid) && Goes(mid, b, to)
    ensures Goes(world, a + b, to)
    decreases a
  {
    hide Apply, Enabled;
    if |a| == 0 {
      assert a + b == b;
    } else {
      assert (a + b)[0] == a[0] && (a + b)[1..] == a[1..] + b;
      GoesConcat(Apply(world, a[0]), a[1..], mid, b, to);
    }
  }

  /** Going on by one more step. */
  lemma GoesFurther(world: World, steps: seq<Step>, mid: World, step: Step, to: World)
    requires Goes(world, steps, mid) && Enabled(mid, step) && Apply(mid, step) == to
    ensures Goes(world, steps + [step], to)
  {
    hide Goes, Apply, Enabled;
    GoesOne(mid, step, to);
    GoesConcat(world, steps, mid, [step], to);
  }

  /** Two tasks on one point: both end well with different stars, and the record keeps the later one. */
  lemma TwoTasksDisagree(records: Records, point: Point, a: StarKey, b: StarKey)
    requires AncestorClosed(records) && point in records && records[point].None?
    requires point.Parent().Some? && Located(records, point.Parent().value)
    ensures WorldInv(World(records, []))
    ensures Goes(World(records, []),
                 [Start(point), Start(point), Continue(0), Continue(1),
                  Assign(0, a), Assign(1, b), Continue(0), Continue(1)],
                 World(records[point := Some(b)], [Finished(point, Ok(a)), Finished(point, Ok(b))]))
  {
    hide Goes, AncestorClosed;
    var to := records[point.Parent().value].value;
    var begun, waiting := Running([point], CheckParent), Running([point], AwaitReply(to));
    var gotA, gotB := Running([point], Replied(a)), Running([point], Replied(b));
    var first, second := records[point := Some(a)], records[point := Some(b)];
    assert first[point := Some(b)] == second;
    var start, s := World(records, []), [Start(point)];
    assert [] + [begun] == [begun];
    GoesOne(start, Start(point), World(records, [begun]));
    GoesFurther(start, s, World(records, [begun]), Start(point), World(records, [begun, begun]));
    s := s + [Start(point)];
    GoesFurther(start, s, World(records, [begun, begun]), Continue(0), World(records, [waiting, begun]));
    s := s + [Continue(0)];
    GoesFurther(start, s, World(records, [waiting, begun]), Continue(1), World(records, [waiting, waiting]));
    s := s + [Continue(1)];
    GoesFurther(start, s, World(records, [waiting, waiting]), Assign(0, a), World(first, [gotA, waiting]));
    s := s + [Assign(0, a)];
    GoesFurther(start, s, World(first, [gotA, waiting]), Assign(1, b), World(second, [gotA, gotB]));
    s := s + [Assign(1, b)];
    GoesFurther(start, s, World(second, [gotA, gotB]), Continue(0), World(second, [Finished(point, Ok(a)), gotB]));
    s := s + [Continue(0)];
    GoesFurther(start, s, World(second, [Finished(point, Ok(a)), gotB]), Continue(1),
                World(second, [Finished(point, Ok(a)), Finished(point, Ok(b))]));
    s := s + [Continue(1)];
    assert s == [Start(point), Start(point), Continue(0), Continue(1),
                 Assign(0, a), Assign(1, b), Continue(0), Continue(1)];
  }

  predicate Handles(world: World, i: nat, point: Point) {
    IsRunning(world, i) && point in world.tasks[i].calls
  }

  /** No two tasks are at work on the point. */
  ghost predicate Alone(world: World, point: Point) {
    forall i: nat, j: nat :: Handles(world, i, point) && Handles(world, j, point) ==> i == j
  }

  /** In no state of the run is a second task at work on the point. */
  ghost predicate AlwaysAlone(world: World, steps: seq<Step>, point: Point)
    requires AllEnabled(world, steps)
    decreases steps
  {
    Alone(world, point) && (|steps| > 0 ==> AlwaysAlone(Apply(world, steps[0]), steps[1..], point))
  }

  /** The star that was answered for the point, if the task has got or given an answer for it. */
  function AnswerFor(task: Task, point: Point): Option<StarKey> {
    match task
    case Running(calls, Replied(host)) => if |calls| > 0 && Top(calls) == point then Some(host) else None
    case Finished(p, Ok(host)) => if p == point then Some(host) else None
    case _ => None
  }

  /** All answers for the point are its record, and once it is located no task waits for it. */
  ghost predicate Settled(world: World, point: Point) {
    && (forall i :: 0 <= i < |world.tasks| && AnswerFor(world.tasks[i], point).Some? ==>
          point in world.records && world.records[point] == AnswerFor(world.tasks[i], point))
    && (Located(world.records, point) ==>
          forall i: nat :: Handles(world, i, point) ==> AnswerFor(world.tasks[i], point).Some?)
  }

  lemma TopOnce(calls: seq<Point>)
    requires |calls| > 0 && Climbs(calls)
    ensures Top(calls) !in calls[..|calls| - 1]
  {
    forall i | 0 <= i < |calls| - 1
      ensures calls[i] != Top(calls)
    {
      CallsAreShallow(calls, i);
      CallsAreShallow(calls, |calls| - 1);
    }
  }

  lemma ProceedKeepsAnswer(records: Records, task: Task, point: Point)
    requires TaskOk(records, task) && task.Running? && !task.pc.AwaitReply?
    requires AnswerFor(task, point).Some? ==> point in records && records[point] == AnswerFor(task, point)
    requires Located(records, point) && point in task.calls ==> AnswerFor(task, point).Some?
    ensures var next := Proceed(records, task.calls, task.pc);
            && (AnswerFor(next, point).Some? ==> point in records && records[point] == AnswerFor(next, point))
            && (Located(records, point) && next.Running? && point in next.calls ==> AnswerFor(next, point).Some?)
  {
    TopOnce(task.calls);
  }

  lemma ContinueKeepsSettled(world: World, i: nat, point: Point)
    requires WorldInv(world) && Enabled(world, Continue(i)) && Settled(world, point)
    ensures Settled(Apply(world, Continue(i)), point)
  {
    hide AnswerFor, Proceed, AncestorClosed;
    var next := Apply(world, Continue(i));
    assert TaskOk(world.records, world.tasks[i]);
    hide TaskOk;
    assert point in world.tasks[i].calls ==> Handles(world, i, point);
    ProceedKeepsAnswer(world.records, world.tasks[i], point);
    forall j: nat | Handles(next, j, point)
      ensures j != i ==> Handles(world, j, point)
    {
    }
  }

  lemma StepKeepsSettled(world: World, step: Step, point: Point)
    requires WorldInv(world) && Enabled(world, step) && Settled(world, point) && Alone(world, point)
    ensures Settled(Apply(world, step), point)
    ensures Located(world.records, point) ==> Apply(world, step).records[point] == world.records[point]
  {
    hide AncestorClosed, TaskOk, Proceed, Climbs;
    match step {
      case Register(_) =>
      case Start(_) =>
      case Continue(i) =>
        ContinueKeepsSettled(world, i, point);
      case Assign(i, host) =>
        var calls, next := world.tasks[i].calls, Apply(world, step);
        if Top(calls) == point {
          assert Handles(world, i, point);
          forall j: nat | Handles(next, j, point)
            ensures j == i
          {
            assert j != i ==> Handles(world, j, point);
          }
        } else {
          assert forall j: nat :: Handles(next, j, point) <==> Handles(world, j, point);
        }
      case Refuse(i) =>
    }
  }

  /**
  While no second task is at work on a point, every answer given for it is and
  stays its record, and its star never changes.
   */
  lemma {:induction false} AloneAnswersStand(world: World, steps: seq<Step>, point: Point)
    requires WorldInv(world) && Settled(world, point) && AllEnabled(world, steps) && AlwaysAlone(world, steps, point)
    ensures Settled(Run(world, steps), point)
    ensures Located(world.records, point) ==>
              point in Run(world, steps).records && Run(world, steps).records[point] == world.records[point]
    decreases steps
  {
    if |steps| > 0 {
      var next := Apply(world, steps[0]);
      StepKeepsInv(world, steps[0]);
      StepKeepsSettled(world, steps[0], point);
      assert Located(world.records, point) ==> Located(next.records, point);
      hide Apply, Settled, WorldInv, Enabled;
      AloneAnswersStand(next, steps[1..], point);
    }
  }

  // ---------------------------------------------------------------- two tasks at work can disagree

  /** Every registered point has registered ancestors, and the root is located. */
  ghost predicate Rooted(records: Records) {
    forall p :: p in records && p.Parent().Some? ==>
      p.Parent().value in records && (|p.Parent().value.segments| == 0 ==> Located(records, p.Parent().value))
  }

  /** A task at work on a point, with no answer for it yet, and with only registered points below the root in hand. */
  ghost predicate AtWork(world: World, i: nat, point: Point) {
    && Handles(world, i, point)
    && AnswerFor(world.tasks[i], point).None?
    && forall p :: p in world.tasks[i].calls ==> p in world.records && |p.segments| > 0
  }

  /** The task has asked for the point and waits for the answer. */
  predicate Waits(world: World, i: nat, point: Point) {
    Asked(world, i) && Top(world.tasks[i].calls) == point && point in world.records
  }

  /** Only the task has changed, and the same points are registered. */
  ghost predicate OnlyTask(world: World, to: World, i: nat) {
    && |to.tasks| == |world.tasks| && to.records.Keys == world.records.Keys
    && forall k :: 0 <= k < |world.tasks| && k != i ==> to.tasks[k] == world.tasks[k]
  }

  /** The next step on the way to asking for the point: go on, or have an inner request granted. */
  function StepTowards(world: World, i: nat, host: StarKey): Step
    requires IsRunning(world, i)
  {
    if world.tasks[i].pc.AwaitReply? then Assign(i, host) else Continue(i)
  }

  lemma PopKeepsPoint(calls: seq<Point>, point: Point)
    requires |calls| > 0 && point in calls && Top(calls) != point
    ensures |calls| > 1 && point in calls[..|calls| - 1]
    ensures forall p :: p in calls[..|calls| - 1] ==> p in calls
  {
  }

  lemma PushKeepsPoint(records: Records, calls: seq<Point>, point: Point)
    requires Rooted(records) && |calls| > 0 && point in calls
    requires forall p :: p in calls ==> p in records && |p.segments| > 0
    ensures Top(calls).Parent().Some?
    ensures var parent := Top(calls).Parent().value;
            && parent in records
            && (records[parent].None? ==> forall p :: p in calls + [parent] ==> p in records && |p.segments| > 0)
  {
    assert Top(calls) in calls;
  }

  lemma ProceedKeepsWork(records: Records, task: Task, point: Point)
    requires Rooted(records) && TaskOk(records, task) && task.Running? && !task.pc.AwaitReply?
    requires point in task.calls && AnswerFor(task, point).None?
    requires forall p :: p in task.calls ==> p in records && |p.segments| > 0
    ensures var next := Proceed(records, task.calls, task.pc);
            && next.Running? && |next.calls| > 0 && point in next.calls && AnswerFor(next, point).None?
            && forall p :: p in next.calls ==> p in records && |p.segments| > 0
  {
    var calls := task.calls;
    PushKeepsPoint(records, calls, point);
    hide Rooted, TaskOk, Climbs;
    if task.pc.Replied? {
      PopKeepsPoint(calls, point);
    } else if task.pc.CheckParent? && records[Top(calls).Parent().value].None? {
      assert point in calls + [Top(calls).Parent().value];
    }
  }

  lemma StepTowardsWorks(world: World, i: nat, point: Point, host: StarKey)
    requires WorldInv(world) && Rooted(world.records) && AtWork(world, i, point) && !Waits(world, i, point)
    ensures var step := StepTowards(world, i, host);
            && Enabled(world, step)
            && var next := Apply(world, step);
            && Rooted(next.records) && AtWork(next, i, point) && OnlyTask(world, next, i)
            && TaskWork(next.tasks[i]) < TaskWork(world.tasks[i])
  {
    var task := world.tasks[i];
    assert TaskOk(world.records, task) && Top(task.calls) in task.calls;
    if task.pc.AwaitReply? {
      AssignKeepsRooted(world.records, Top(task.calls), host);
    } else {
      UnwrapIsSafe(world, i);
      ProceedKeepsWork(world.records, task, point);
      ProceedLessWork(world.records, task);
    }
  }

  lemma AssignKeepsRooted(records: Records, point: Point, host: StarKey)
    requires Rooted(records) && point in records
    ensures Rooted(records[point := Some(host)])
    ensures records[point := Some(host)].Keys == records.Keys
  {
  }

  /** A task at work can be brought to ask for the point, without touching any other task. */
  lemma {:induction false} CanAsk(world: World, i: nat, point: Point, host: StarKey)
    returns (steps: seq<Step>, to: World)
    requires WorldInv(world) && Rooted(world.records) && AtWork(world, i, point)
    ensures Goes(world, steps, to)
    ensures WorldInv(to) && Rooted(to.records) && OnlyTask(world, to, i) && Waits(to, i, point)
    decreases TaskWork(world.tasks[i])
  {
    if Waits(world, i, point) {
      steps, to := [], world;
    } else {
      hide WorldInv, Rooted, AtWork, Apply, Enabled, Goes, Waits, StepTowards, TaskWork;
      StepTowardsWorks(world, i, point, host);
      var step := StepTowards(world, i, host);
      StepKeepsInv(world, step);
      var next := Apply(world, step);
      var rest;
      rest, to := CanAsk(next, i, point, host);
      GoesOne(world, step, next);
      GoesConcat(world, [step], next, rest, to);
      steps := [step] + rest;
    }
  }

  lemma WorkElsewhere(world: World, to: World, i: nat, j: nat, point: Point)
    requires OnlyTask(world, to, i) && AtWork(world, j, point) && i != j
    ensures AtWork(to, j, point)
  {
  }

  lemma WaitsElsewhere(world: World, to: World, i: nat, j: nat, point: Point)
    requires OnlyTask(world, to, i) && Waits(world, j, point) && i != j
    ensures Waits(to, j, point)
  {
  }

  /**
  From any world in which two tasks are at work on a point, unanswered, some run
  gives them any two answers; so they can disagree, and one is not the record.
   */
  lemma TwoAtWorkCanDisagree(world: World, i: nat, j: nat, point: Point, a: StarKey, b: StarKey)
    returns (steps: seq<Step>, to: World)
    requires WorldInv(world) && Rooted(world.records)
    requires i != j && AtWork(world, i, point) && AtWork(world, j, point)
    ensures Goes(world, steps, to) && |to.tasks| == |world.tasks| && i < |to.tasks| && j < |to.tasks|
    ensures AnswerFor(to.tasks[i], point) == Some(a) && AnswerFor(to.tasks[j], point) == Some(b)
    ensures a != b ==> !Settled(to, point)
  {
    hide WorldInv, Rooted, AtWork, Goes, OnlyTask, Waits;
    var first, mid := CanAsk(world, i, point, a);
    WorkElsewhere(world, mid, i, j, point);
    var second, both := CanAsk(mid, j, point, b);
    WaitsElsewhere(mid, both, j, i, point);
    GoesConcat(world, first, mid, second, both);
    var last;
    last, to := BothAnswered(both, i, j, point, a, b);
    GoesConcat(world, first + second, both, last, to);
    TasksStay(world, mid, both, i, j);
    steps := first + second + last;
  }

  lemma TasksStay(world: World, mid: World, both: World, i: nat, j: nat)
    requires OnlyTask(world, mid, i) && OnlyTask(mid, both, j)
    ensures |both.tasks| == |world.tasks|
  {
  }

  lemma BothAnswered(world: World, i: nat, j: nat, point: Point, a: StarKey, b: StarKey)
    returns (steps: seq<Step>, to: World)
    requires Waits(world, i, point) && Waits(world, j, point) && i != j
    ensures Goes(world, steps, to) && |to.tasks| == |world.tasks| && i < |to.tasks| && j < |to.tasks|
    ensures AnswerFor(to.tasks[i], point) == Some(a) && AnswerFor(to.tasks[j], point) == Some(b)
    ensures a != b ==> !Settled(to, point)
  {
    hide Goes;
    var mid := Apply(world, Assign(i, a));
    to := Apply(mid, Assign(j, b));
    GoesOne(world, Assign(i, a), mid);
    GoesFurther(world, [Assign(i, a)], mid, Assign(j, b), to);
    steps := [Assign(i, a)] + [Assign(j, b)];
  }

  // ---------------------------------------------------------------- a task alone is the locator alone

  /** The world of a single task. */
  function Single(records: Records, task: Task): World {
    World(records, [task])
  }

  /** The star that is asked answers as Reply says: it assigns the host, or refuses. */
  function AnswerStep(records: Records, hosts: Hosts, point: Point): Step {
    if point in records && hosts(point).Some? then Assign(0, hosts(point).value) else Refuse(0)
  }

  /** Where a task stands when the call for its innermost point has come back. */
  function Returned(calls: seq<Point>, r: Result<StarKey, ProvisionErr>): Task
    requires |calls| > 0
  {
    match r
    case Ok(host) => Running(calls, Replied(host))
    case Err(err) => Finished(calls[0], Err(err))
  }

  /** The locator gets its answer from the star it has asked. */
  lemma AskedReturns(records: Records, hosts: Hosts, calls: seq<Point>, to: StarKey)
    requires |calls| > 0
    ensures var (r, after) := Reply(records, hosts, Top(calls));
            Goes(Single(records, Running(calls, AwaitReply(to))), [AnswerStep(records, hosts, Top(calls))],
                 Single(after, Returned(calls, r)))
  {
    var reply := Reply(records, hosts, Top(calls));
    GoesOne(Single(records, Running(calls, AwaitReply(to))), AnswerStep(records, hosts, Top(calls)),
            Single(reply.1, Returned(calls, reply.0)));
  }

  /** The first step of a call, which looks at the parent. */
  lemma LooksAtParent(records: Records, calls: seq<Point>)
    requires |calls| > 0
    ensures Goes(Single(records, Running(calls, CheckParent)), [Continue(0)],
                 Single(records, Proceed(records, calls, CheckParent)))
  {
    GoesOne(Single(records, Running(calls, CheckParent)), Continue(0),
            Single(records, Proceed(records, calls, CheckParent)));
  }

  /** With the parent provisioned: read its record again, ask its star, take the answer. */
  lemma GoesOn(mid: Records, hosts: Hosts, calls: seq<Point>, host: StarKey) returns (steps: seq<Step>)
    requires |calls| > 0 && Top(calls).Parent().Some? && Located(mid, Top(calls).Parent().value)
    ensures var (r, after) := Reply(mid, hosts, Top(calls));
            Goes(Single(mid, Running(calls + [Top(calls).Parent().value], Replied(host))), steps,
                 Single(after, Returned(calls, r)))
  {
    hide Goes, Reply, Returned;
    var parent := Top(calls).Parent().value;
    var world := Single(mid, Running(calls + [parent], Replied(host)));
    var checked := Single(mid, Running(calls, ParentProvisioned));
    var asked := Single(mid, Running(calls, AwaitReply(mid[parent].value)));
    assert (calls + [parent])[..|calls|] == calls;
    GoesOne(world, Continue(0), checked);
    GoesFurther(world, [Continue(0)], checked, Continue(0), asked);
    AskedReturns(mid, hosts, calls, mid[parent].value);
    var answer := [AnswerStep(mid, hosts, Top(calls))];
    var reply := Reply(mid, hosts, Top(calls));
    GoesConcat(world, [Continue(0)] + [Continue(0)], asked, answer, Single(reply.1, Returned(calls, reply.0)));
    steps := [Continue(0)] + [Continue(0)] + answer;
  }

  /** One call of provision_inner, step by step: the steps of a task on its own do what Provisioned says. */
  lemma {:induction false} CallReturns(records: Records, hosts: Hosts, calls: seq<Point>)
    returns (steps: seq<Step>, after: Records, sent: seq<Request>, r: Result<StarKey, ProvisionErr>)
    requires |calls| > 0
    ensures Provisioned(records, hosts, Top(calls), after, sent, r)
    ensures Goes(Single(records, Running(calls, CheckParent)), steps, Single(after, Returned(calls, r)))
    decreases |Top(calls).segments|, 1
  {
    hide Provisioned, Reply, Goes, Apply, Enabled;
    var point, world := Top(calls), Single(records, Running(calls, CheckParent));
    var parent := point.Parent();
    LooksAtParent(records, calls);
    if parent.None? || parent.value !in records {
      CannotStart(records, hosts, point);
      steps, after, sent := [Continue(0)], records, [];
      r := Err(if parent.None? then ExpectedRootProvisioned else NotFound);
    } else if records[parent.value].Some? {
      var to := records[parent.value].value;
      AskedAlone(records, hosts, point);
      AskedReturns(records, hosts, calls, to);
      var reply, answer := Reply(records, hosts, point), [AnswerStep(records, hosts, point)];
      GoesConcat(world, [Continue(0)], Single(records, Running(calls, AwaitReply(to))), answer,
                 Single(reply.1, Returned(calls, reply.0)));
      steps, after, sent, r := [Continue(0)] + answer, reply.1, [Request(point, to)], reply.0;
    } else {
      steps, after, sent, r := CallReturnsDeeper(records, hosts, calls);
    }
  }

  lemma {:induction false} CallReturnsDeeper(records: Records, hosts: Hosts, calls: seq<Point>)
    returns (steps: seq<Step>, after: Records, sent: seq<Request>, r: Result<StarKey, ProvisionErr>)
    requires |calls| > 0 && Top(calls).Parent().Some?
    requires Top(calls).Parent().value in records && records[Top(calls).Parent().value].None?
    ensures Provisioned(records, hosts, Top(calls), after, sent, r)
    ensures Goes(Single(records, Running(calls, CheckParent)), steps, Single(after, Returned(calls, r)))
    decreases |Top(calls).segments|, 0
  {
    hide Provisioned, Reply, Goes, Apply, Enabled;
    var point, world := Top(calls), Single(records, Running(calls, CheckParent));
    var parent := point.Parent().value;
    var deeper := calls + [parent];
    LooksAtParent(records, calls);
    assert Top(deeper) == parent;
    var above, mid, asked, answer := CallReturns(records, hosts, deeper);
    GoesConcat(world, [Continue(0)], Single(records, Running(deeper, CheckParent)), above,
               Single(mid, Returned(deeper, answer)));
    if answer.Err? {
      FailedAbove(records, hosts, point, mid, asked, answer);
      steps, after, sent, r := [Continue(0)] + above, mid, asked, answer;
    } else {
      AboveIsLocated(records, hosts, point, mid, asked, answer);
      AskedBelow(records, hosts, point, mid, asked, answer);
      var last := GoesOn(mid, hosts, calls, answer.value);
      var reply := Reply(mid, hosts, point);
      GoesConcat(world, [Continue(0)] + above, Single(mid, Returned(deeper, answer)), last,
                 Single(reply.1, Returned(calls, reply.0)));
      steps := [Continue(0)] + above + last;
      after, sent, r := reply.1, asked + [Request(point, mid[parent].value)], reply.0;
    }
  }

  /** A task that is alone from its start to its end changes the registry and answers as the locator does. */
  lemma AloneIsLocator(records: Records, hosts: Hosts, point: Point)
    returns (steps: seq<Step>, after: Records, sent: seq<Request>, r: Result<StarKey, ProvisionErr>)
    requires point in records && records[point].None?
    ensures Provisioned(records, hosts, point, after, sent, r)
    ensures Goes(World(records, []), steps, World(after, [Finished(point, r)]))
  {
    hide Provisioned, Goes;
    var start, begun := World(records, []), Single(records, Running([point], CheckParent));
    var above;
    above, after, sent, r := CallReturns(records, hosts, [point]);
    assert [] + begun.tasks == begun.tasks;
    GoesOne(start, Start(point), begun);
    var back := Single(after, Returned([point], r));
    GoesConcat(start, [Start(point)], begun, above, back);
    steps := [Start(point)] + above;
    if r.Ok? {
      GoesFurther(start, steps, back, Continue(0), World(after, [Finished(point, r)]));
      steps := steps + [Continue(0)];
    }
  }
}
