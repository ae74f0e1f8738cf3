/**
Topology: star templates, the machine star that is joined to all of them, and
delivery in the constellations that result.
 */
module Topology {
  import opened Outcomes
  import opened Points
  import opened Stars
  import opened Fabric

  datatype StarCon = Receiver(stub: StarStub) | Connector(stub: StarStub)

  /** The value of a star template. */
  datatype Template = Template(key: StarKey, kind: StarSub, connections: seq<StarCon>) {
    function Stub(): StarStub {
      StarStub(key, kind)
    }
  }

  class StarTemplate {
    const key: StarKey
    const kind: StarSub
    var connections: seq<StarCon>

    constructor (key: StarKey, kind: StarSub)
      ensures this.key == key && this.kind == kind && connections == []
    {
      this.key, this.kind, connections := key, kind, [];
    }

    constructor Clone(template: Template)
      ensures key == template.key && kind == template.kind && connections == template.connections
    {
      key, kind, connections := template.key, template.kind, template.connections;
    }

    function View(): Template
      reads this
    {
      Template(key, kind, connections)
    }

    function ToStub(): StarStub {
      StarStub(key, kind)
    }

    method Receive(stub: StarStub)
      modifies this
      ensures connections == old(connections) + [Receiver(stub)]
    {
      connections := connections + [Receiver(stub)];
    }

    method Connect(stub: StarStub)
      modifies this
      ensures connections == old(connections) + [Connector(stub)]
    {
      connections := connections + [Connector(stub)];
    }
  }

  function Views(stars: seq<StarTemplate>): (views: seq<Template>)
    reads stars
    ensures |views| == |stars|
  {
    seq(|stars|, i requires 0 <= i < |stars| reads stars => stars[i].View())
  }

  // ---------------------------------------------------------------- joining the machine star

  function Joined(template: Template, machine: StarKey): Template {
    template.(connections := template.connections + [Connector(StarStub(machine, Machine))])
  }

  function Receivers(templates: seq<Template>): seq<StarCon> {
    seq(|templates|, i requires 0 <= i < |templates| => Receiver(templates[i].Stub()))
  }

  /** The templates of a machine: the given ones joined to the machine star, and that star last. */
  function WithMachine(templates: seq<Template>, machine: StarKey): seq<Template> {
    seq(|templates|, i requires 0 <= i < |templates| => Joined(templates[i], machine))
    + [Template(machine, Machine, Receivers(templates))]
  }

  /** The same star by star: the given stars connect to the machine star, which receives each of them. */
  lemma WithMachineSpelledOut(templates: seq<Template>, machine: StarKey)
    ensures var all, n := WithMachine(templates, machine), |templates|;
            && |all| == n + 1
            && (forall i :: 0 <= i < n ==>
                  && all[i].key == templates[i].key && all[i].kind == templates[i].kind
                  && all[i].connections == templates[i].connections + [Connector(StarStub(machine, Machine))])
            && all[n].key == machine && all[n].kind == Machine && |all[n].connections| == n
            && (forall i :: 0 <= i < n ==>
                  all[n].connections[i] == Receiver(StarStub(templates[i].key, templates[i].kind)))
  {
  }

  method WithMachineStar(templates: seq<StarTemplate>, machineKey: StarKey) returns (stars: seq<StarTemplate>)
    ensures fresh(stars)
    ensures Views(stars) == WithMachine(Views(templates), machineKey)
  {
    ghost var views := Views(templates);
    stars := [];
    for i := 0 to |templates|
      invariant fresh(stars) && |stars| == i
      invariant forall j, k :: 0 <= j < k < i ==> stars[j] != stars[k]
      invariant forall j :: 0 <= j < i ==> stars[j].View() == views[j]
    {
      var clone := new StarTemplate.Clone(templates[i].View());
      stars := stars + [clone];
    }
    var machine := new StarTemplate(machineKey, Machine);
    for i := 0 to |stars|
      invariant fresh(stars) && fresh(machine) && machine !in stars && |stars| == |templates|
      invariant forall j, k :: 0 <= j < k < |stars| ==> stars[j] != stars[k]
      invariant forall j :: 0 <= j < i ==> stars[j].View() == Joined(views[j], machineKey)
      invariant forall j :: i <= j < |stars| ==> stars[j].View() == views[j]
      invariant machine.View() == Template(machineKey, Machine, Receivers(views[..i]))
    {
      stars[i].Connect(machine.ToStub());
      machine.Receive(stars[i].ToStub());
      assert Receivers(views[..i + 1]) == Receivers(views[..i]) + [Receiver(views[i].Stub())];
    }
    assert views[..|stars|] == views;
    stars := stars + [machine];
  }

  // ---------------------------------------------------------------- adjacency

  /** Later connections to the same key replace earlier ones. */
  function AdjacentsOf(connections: seq<StarCon>): map<StarKey, StarSub> {
    if |connections| == 0 then map[]
    else
      var last := connections[|connections| - 1].stub;
      AdjacentsOf(connections[..|connections| - 1])[last.key := last.kind]
  }

  method PrimeAdjacents(template: Template) returns (adjacents: map<StarKey, StarSub>)
    ensures adjacents == AdjacentsOf(template.connections)
  {
    adjacents := map[];
    for i := 0 to |template.connections|
      invariant adjacents == AdjacentsOf(template.connections[..i])
    {
      var stub := template.connections[i].stub;
      adjacents := adjacents[stub.key := stub.kind];
      assert template.connections[..i + 1][..i] == template.connections[..i];
    }
    assert template.connections[..|template.connections|] == template.connections;
  }

  function StubsOf(connections: seq<StarCon>): set<StarStub> {
    set i | 0 <= i < |connections| :: connections[i].stub
  }

  /** The connections name every key with its one kind. */
  predicate KindsAgree(connections: seq<StarCon>, kinds: map<StarKey, StarSub>) {
    forall i | 0 <= i < |connections| ::
      connections[i].stub.key in kinds && kinds[connections[i].stub.key] == connections[i].stub.kind
  }

  lemma {:induction false} AdjacentsAreStubs(connections: seq<StarCon>, kinds: map<StarKey, StarSub>)
    requires KindsAgree(connections, kinds)
    ensures forall k :: k in AdjacentsOf(connections) <==> k in kinds && StarStub(k, kinds[k]) in StubsOf(connections)
    ensures forall k :: k in AdjacentsOf(connections) ==> AdjacentsOf(connections)[k] == kinds[k]
  {
    var n := |connections|;
    if n > 0 {
      var front, last := connections[..n - 1], connections[n - 1].stub;
      AdjacentsAreStubs(front, kinds);
      forall stub
        ensures stub in StubsOf(connections) <==> stub in StubsOf(front) || stub == last
      {
        if stub in StubsOf(front) {
          var i :| 0 <= i < |front| && front[i].stub == stub;
          assert connections[i].stub == stub;
        }
        if stub in StubsOf(connections) {
          var i :| 0 <= i < n && connections[i].stub == stub;
          assert i < n - 1 ==> front[i].stub == stub;
        }
        assert connections[n - 1].stub == last;
      }
    }
  }

  // ---------------------------------------------------------------- duality of connections

  predicate DistinctKeys(templates: seq<Template>) {
    forall i, j | 0 <= i < j < |templates| :: templates[i].key != templates[j].key
  }

  predicate NoStarNamed(templates: seq<Template>, key: StarKey) {
    forall i | 0 <= i < |templates| :: templates[i].key != key
  }

  /** Every connection is to one of the templates. */
  ghost predicate Closed(templates: seq<Template>) {
    forall i, con :: 0 <= i < |templates| && con in templates[i].connections ==>
      exists j :: 0 <= j < |templates| && con.stub == templates[j].Stub()
  }

  /** A connects to B exactly when B receives A. */
  ghost predicate Dual(templates: seq<Template>) {
    forall i, j :: 0 <= i < |templates| && 0 <= j < |templates| ==>
      (Connector(templates[j].Stub()) in templates[i].connections <==>
       Receiver(templates[i].Stub()) in templates[j].connections)
  }

  lemma ReceiversOf(templates: seq<Template>, i: int)
    requires 0 <= i < |templates|
    ensures Receiver(templates[i].Stub()) in Receivers(templates)
    ensures forall con :: con in Receivers(templates) ==> con.Receiver?
  {
    assert Receivers(templates)[i] == Receiver(templates[i].Stub());
  }

  lemma JoinedClosed(templates: seq<Template>, machine: StarKey)
    requires Closed(templates)
    ensures Closed(WithMachine(templates, machine))
  {
    var all, n := WithMachine(templates, machine), |templates|;
    assert all[n].Stub() == StarStub(machine, Machine);
    forall i, con | 0 <= i < |all| && con in all[i].connections
      ensures exists j :: 0 <= j < |all| && con.stub == all[j].Stub()
    {
      if i == n {
        var j :| 0 <= j < n && Receivers(templates)[j] == con;
        assert con.stub == all[j].Stub();
      } else if con in templates[i].connections {
        var j :| 0 <= j < n && con.stub == templates[j].Stub();
        assert con.stub == all[j].Stub();
      } else {
        assert con.stub == all[n].Stub();
      }
    }
  }

  /** Joining the machine star keeps the connections closed and dual. */
  lemma JoiningKeepsDuality(templates: seq<Template>, machine: StarKey)
    requires DistinctKeys(templates) && Closed(templates) && Dual(templates) && NoStarNamed(templates, machine)
    ensures var all := WithMachine(templates, machine);
            DistinctKeys(all) && Closed(all) && Dual(all)
  {
    var all := WithMachine(templates, machine);
    hide Closed;
    JoinedClosed(templates, machine);
    assert Dual(all) by {
      hide DistinctKeys, NoStarNamed;
      forall i, j | 0 <= i < |all| && 0 <= j < |all|
        ensures Connector(all[j].Stub()) in all[i].connections <==> Receiver(all[i].Stub()) in all[j].connections
      {
        JoinedPairDual(templates, machine, i, j);
      }
    }
  }

  lemma JoinedPairDual(templates: seq<Template>, machine: StarKey, i: int, j: int)
    requires DistinctKeys(templates) && Closed(templates) && Dual(templates) && NoStarNamed(templates, machine)
    requires 0 <= i <= |templates| && 0 <= j <= |templates|
    ensures var all := WithMachine(templates, machine);
            Connector(all[j].Stub()) in all[i].connections <==> Receiver(all[i].Stub()) in all[j].connections
  {
    var all, n := WithMachine(templates, machine), |templates|;
    if i < n && j < n {
      assert all[j].Stub().key != machine;
      assert Connector(all[j].Stub()) in all[i].connections <==>
              Connector(templates[j].Stub()) in templates[i].connections;
      assert Receiver(all[i].Stub()) in all[j].connections <==>
              Receiver(templates[i].Stub()) in templates[j].connections;
    } else if i < n {
      ReceiversOf(templates, i);
      assert all[i].connections[|templates[i].connections|] == Connector(all[j].Stub());
    } else if j < n {
      ReceiversOf(templates, j);
      forall con | con in templates[j].connections
        ensures con.stub.key != machine
      {
        var k :| 0 <= k < n && con.stub == templates[k].Stub();
      }
    } else if n > 0 {
      ReceiversOf(templates, 0);
      assert forall con :: con in Receivers(templates) ==> con.stub.key != machine;
    }
  }

  function KindsOf(templates: seq<Template>): map<StarKey, StarSub>
    requires DistinctKeys(templates)
  {
    if |templates| == 0 then map[]
    else
      var last := templates[|templates| - 1];
      KindsOf(templates[..|templates| - 1])[last.key := last.kind]
  }

  lemma KindsOfStep(templates: seq<Template>)
    requires DistinctKeys(templates)
    ensures |templates| == 0 ==> KindsOf(templates) == map[]
    ensures |templates| > 0 ==>
              var front, last := templates[..|templates| - 1], templates[|templates| - 1];
              && DistinctKeys(front) && NoStarNamed(front, last.key)
              && KindsOf(templates) == KindsOf(front)[last.key := last.kind]
  {
  }

  predicate IsKeyOf(templates: seq<Template>, key: StarKey) {
    exists i :: 0 <= i < |templates| && templates[i].key == key
  }

  lemma KeysOfMore(front: seq<Template>, last: Template, key: StarKey)
    ensures IsKeyOf(front + [last], key) <==> IsKeyOf(front, key) || key == last.key
  {
    var all := front + [last];
    assert all[|front|] == last;
    assert forall i :: 0 <= i < |front| ==> all[i] == front[i];
  }

  lemma {:induction false} KindsOfAll(templates: seq<Template>)
    requires DistinctKeys(templates)
    ensures forall i :: 0 <= i < |templates| ==>
              templates[i].key in KindsOf(templates) && KindsOf(templates)[templates[i].key] == templates[i].kind
    ensures forall k :: k in KindsOf(templates) <==> IsKeyOf(templates, k)
  {
    hide KindsOf, IsKeyOf;
    var n := |templates|;
    KindsOfStep(templates);
    if n == 0 {
      NoKeys(templates);
    } else {
      var front, last := templates[..n - 1], templates[n - 1];
      KindsOfAll(front);
      assert templates == front + [last];
      forall k
        ensures IsKeyOf(templates, k) <==> IsKeyOf(front, k) || k == last.key
      {
        KeysOfMore(front, last, k);
      }
      assert forall i :: 0 <= i < n - 1 ==> templates[i] == front[i] && front[i].key != last.key;
    }
  }

  lemma NoKeys(templates: seq<Template>)
    requires |templates| == 0
    ensures forall k :: !IsKeyOf(templates, k)
  {
  }

  lemma ClosedKindsAgree(templates: seq<Template>, i: int)
    requires DistinctKeys(templates) && Closed(templates) && 0 <= i < |templates|
    ensures KindsAgree(templates[i].connections, KindsOf(templates))
  {
    KindsOfAll(templates);
    var connections := templates[i].connections;
    forall c | 0 <= c < |connections|
      ensures connections[c].stub.key in KindsOf(templates)
      ensures KindsOf(templates)[connections[c].stub.key] == connections[c].stub.kind
    {
      assert connections[c] in connections;
      var j :| 0 <= j < |templates| && connections[c].stub == templates[j].Stub();
    }
  }

  function ForwardersIn(adjacents: map<StarKey, StarSub>): set<StarKey> {
    set k | k in adjacents && adjacents[k].IsForwarder()
  }

  lemma JoinedAdjacents(connections: seq<StarCon>, machine: StarKey)
    ensures AdjacentsOf(connections + [Connector(StarStub(machine, Machine))]) ==
            AdjacentsOf(connections)[machine := Machine]
  {
    assert (connections + [Connector(StarStub(machine, Machine))])[..|connections|] == connections;
  }

  lemma MachineAdjacents(templates: seq<Template>)
    requires DistinctKeys(templates)
    ensures AdjacentsOf(Receivers(templates)).Keys == KindsOf(templates).Keys
  {
    hide AdjacentsOf, KindsOf;
    KindsOfAll(templates);
    AdjacentsAreStubs(Receivers(templates), KindsOf(templates));
    forall k | k in KindsOf(templates)
      ensures k in AdjacentsOf(Receivers(templates))
    {
      var i :| 0 <= i < |templates| && templates[i].key == k;
      assert Receivers(templates)[i].stub == templates[i].Stub();
      assert templates[i].Stub() in StubsOf(Receivers(templates));
    }
  }

  lemma MachineIsNewcomer(templates: seq<Template>, machine: StarKey, i: int)
    requires DistinctKeys(templates) && Closed(templates) && NoStarNamed(templates, machine)
    requires 0 <= i < |templates|
    ensures machine !in AdjacentsOf(templates[i].connections)
  {
    hide AdjacentsOf, KindsOf;
    ClosedKindsAgree(templates, i);
    AdjacentsAreStubs(templates[i].connections, KindsOf(templates));
    KindsOfAll(templates);
  }

  /** The machine star becomes a neighbour of every star, and of no star a forwarder. */
  lemma JoiningKeepsForwarders(templates: seq<Template>, machine: StarKey, i: int)
    requires DistinctKeys(templates) && Closed(templates) && NoStarNamed(templates, machine)
    requires 0 <= i < |templates|
    ensures var all := WithMachine(templates, machine);
            && AdjacentsOf(all[i].connections) == AdjacentsOf(templates[i].connections)[machine := Machine]
            && ForwardersIn(AdjacentsOf(all[i].connections)) == ForwardersIn(AdjacentsOf(templates[i].connections))
            && AdjacentsOf(all[|templates|].connections).Keys == KindsOf(templates).Keys
            && templates[i].key in AdjacentsOf(all[|templates|].connections)
  {
    hide AdjacentsOf, KindsOf, ForwardersIn, WithMachine, Closed;
    WithMachineAt(templates, machine, i);
    JoinedAdjacents(templates[i].connections, machine);
    MachineIsNewcomer(templates, machine, i);
    NoNewForwarder(AdjacentsOf(templates[i].connections), machine);
    MachineAdjacents(templates);
    KindsOfAll(templates);
  }

  lemma WithMachineAt(templates: seq<Template>, machine: StarKey, i: int)
    requires 0 <= i < |templates|
    ensures |WithMachine(templates, machine)| == |templates| + 1
    ensures WithMachine(templates, machine)[i] == Joined(templates[i], machine)
    ensures WithMachine(templates, machine)[|templates|] == Template(machine, Machine, Receivers(templates))
  {
  }

  lemma NoNewForwarder(adjacents: map<StarKey, StarSub>, machine: StarKey)
    requires machine !in adjacents
    ensures ForwardersIn(adjacents[machine := Machine]) == ForwardersIn(adjacents)
  {
  }

  // ---------------------------------------------------------------- the hub

  /** One forwarder, joined to all other stars; the other stars are joined to nothing else. */
  ghost predicate HubTemplate(templates: seq<Template>, hub: int) {
    && 0 <= hub < |templates|
    && DistinctKeys(templates)
    && templates[hub].kind.IsForwarder()
    && (forall stub :: stub in StubsOf(templates[hub].connections) <==>
          exists i :: 0 <= i < |templates| && i != hub && stub == templates[i].Stub())
    && (forall i :: 0 <= i < |templates| && i != hub ==> StubsOf(templates[i].connections) == {templates[hub].Stub()})
  }

  /** The stars that are built from the templates, whatever the order of their forwarders. */
  ghost predicate BuiltFrom(stars: Constellation, templates: seq<Template>) {
    && (forall k :: k in stars <==> exists i :: 0 <= i < |templates| && templates[i].key == k)
    && (forall i :: 0 <= i < |templates| ==>
          var t := templates[i];
          t.key in stars && stars[t.key].Built()
          && stars[t.key] == Star(t.key, t.kind, AdjacentsOf(t.connections), stars[t.key].forwarders))
  }

  ghost predicate HubAndMachine(stars: Constellation, hub: StarKey, machine: StarKey) {
    && KeysAgree(stars)
    && hub in stars && machine in stars && hub != machine
    && stars[hub].kind.IsForwarder()
    && stars[hub].adjacents.Keys == stars.Keys - {hub}
    && stars[machine].adjacents.Keys == stars.Keys - {machine}
    && (forall k :: k in stars && k != hub && k != machine ==>
          stars[k].forwarders == [hub] && machine in stars[k].adjacents)
  }

  lemma HubIsClosed(templates: seq<Template>, hub: int)
    requires HubTemplate(templates, hub)
    ensures Closed(templates)
  {
    forall i, con | 0 <= i < |templates| && con in templates[i].connections
      ensures exists j :: 0 <= j < |templates| && con.stub == templates[j].Stub()
    {
      assert con.stub in StubsOf(templates[i].connections);
      if i != hub {
        assert con.stub == templates[hub].Stub();
      }
    }
  }

  lemma SpokeForwarders(star: Star, hub: StarKey, machine: StarKey)
    requires star.Built() && hub != machine
    requires star.adjacents.Keys == {hub, machine}
    requires star.adjacents[hub].IsForwarder() && !star.adjacents[machine].IsForwarder()
    ensures star.forwarders == [hub]
  {
    assert |star.forwarders| > 1 ==> star.forwarders[0] != star.forwarders[1];
    forall j | 0 <= j < |star.forwarders|
      ensures star.forwarders[j] == hub
    {
      assert star.forwarders[j] in star.forwarders;
    }
    assert hub in star.forwarders;
  }

  lemma StarsOf(stars: Constellation, templates: seq<Template>, machine: StarKey)
    requires DistinctKeys(templates) && BuiltFrom(stars, WithMachine(templates, machine))
    ensures stars.Keys == KindsOf(templates).Keys + {machine}
    ensures KeysAgree(stars)
  {
    hide KindsOf, AdjacentsOf;
    var all, n, kinds := WithMachine(templates, machine), |templates|, KindsOf(templates);
    KindsOfAll(templates);
    assert forall i :: 0 <= i < n ==> all[i].key == templates[i].key;
    assert all[n].key == machine;
    forall k
      ensures k in stars <==> k in kinds || k == machine
    {
      if k in kinds {
        var i :| 0 <= i < n && templates[i].key == k;
        assert all[i].key == k;
      }
    }
  }

  /** Any hub template makes, with the machine star, a constellation of hub, machine and spokes. */
  lemma HubConstellation(stars: Constellation, templates: seq<Template>, hub: int, machine: StarKey)
    requires HubTemplate(templates, hub) && NoStarNamed(templates, machine)
    requires BuiltFrom(stars, WithMachine(templates, machine))
    ensures HubAndMachine(stars, templates[hub].key, machine)
  {
    hide KindsOf, AdjacentsOf, HubTemplate, WithMachine, BuiltFrom, Closed, ForwardersIn;
    HubParts(templates, hub);
    var n, center := |templates|, templates[hub].key;
    HubIsClosed(templates, hub);
    StarsOf(stars, templates, machine);
    KindsOfAll(templates);
    BuiltMachine(stars, templates, machine);
    BuiltStar(stars, templates, machine, hub);
    HubAdjacents(templates, hub);
    assert stars[center].adjacents.Keys == stars.Keys - {center};
    assert stars[machine].adjacents.Keys == stars.Keys - {machine};
    forall k | k in stars && k != center && k != machine
      ensures stars[k].forwarders == [center] && machine in stars[k].adjacents
    {
      var i :| 0 <= i < n && templates[i].key == k;
      SpokeStar(stars, templates, hub, machine, i);
    }
  }

  lemma SpokeStar(stars: Constellation, templates: seq<Template>, hub: int, machine: StarKey, i: int)
    requires HubTemplate(templates, hub) && NoStarNamed(templates, machine)
    requires BuiltFrom(stars, WithMachine(templates, machine)) && 0 <= i < |templates| && i != hub
    ensures templates[i].key in stars
    ensures stars[templates[i].key].forwarders == [templates[hub].key] && machine in stars[templates[i].key].adjacents
  {
    hide AdjacentsOf, HubTemplate, WithMachine, BuiltFrom, Closed;
    HubParts(templates, hub);
    HubIsClosed(templates, hub);
    BuiltStar(stars, templates, machine, i);
    SpokeAdjacents(templates, hub, i);
    SpokeForwarders(stars[templates[i].key], templates[hub].key, machine);
  }

  lemma BuiltStar(stars: Constellation, templates: seq<Template>, machine: StarKey, i: int)
    requires DistinctKeys(templates) && Closed(templates) && NoStarNamed(templates, machine)
    requires BuiltFrom(stars, WithMachine(templates, machine)) && 0 <= i < |templates|
    ensures var key := templates[i].key;
            && key in stars && stars[key].kind == templates[i].kind && stars[key].Built()
            && stars[key].adjacents == AdjacentsOf(templates[i].connections)[machine := Machine]
  {
    hide AdjacentsOf, KindsOf, ForwardersIn, Closed;
    JoiningKeepsForwarders(templates, machine, i);
    assert WithMachine(templates, machine)[i].key == templates[i].key;
  }

  lemma BuiltMachine(stars: Constellation, templates: seq<Template>, machine: StarKey)
    requires DistinctKeys(templates) && BuiltFrom(stars, WithMachine(templates, machine))
    ensures machine in stars && stars[machine].adjacents.Keys == KindsOf(templates).Keys
  {
    hide AdjacentsOf, KindsOf;
    MachineAdjacents(templates);
    assert WithMachine(templates, machine)[|templates|] == Template(machine, Machine, Receivers(templates));
  }

  lemma HubParts(templates: seq<Template>, hub: int)
    requires HubTemplate(templates, hub)
    ensures 0 <= hub < |templates| && DistinctKeys(templates) && templates[hub].kind.IsForwarder()
  {
  }

  lemma HubStub(templates: seq<Template>, hub: int, i: int)
    requires HubTemplate(templates, hub) && 0 <= i < |templates|
    ensures templates[i].Stub() in StubsOf(templates[hub].connections) <==> i != hub
  {
    assert forall j :: 0 <= j < |templates| && j != hub ==> templates[j].Stub() != templates[hub].Stub();
  }

  lemma HubAdjacents(templates: seq<Template>, hub: int)
    requires HubTemplate(templates, hub)
    ensures AdjacentsOf(templates[hub].connections).Keys == KindsOf(templates).Keys - {templates[hub].key}
  {
    hide KindsOf, AdjacentsOf, Closed;
    var connections, kinds := templates[hub].connections, KindsOf(templates);
    KindsOfAll(templates);
    HubIsClosed(templates, hub);
    ClosedKindsAgree(templates, hub);
    AdjacentsAreStubs(connections, kinds);
    forall k | k in kinds
      ensures k in AdjacentsOf(connections) <==> k != templates[hub].key
    {
      var i :| 0 <= i < |templates| && templates[i].key == k;
      assert templates[i].Stub() == StarStub(k, kinds[k]);
      HubStub(templates, hub, i);
    }
  }

  lemma SpokeStubs(templates: seq<Template>, hub: int, i: int)
    requires HubTemplate(templates, hub) && 0 <= i < |templates| && i != hub
    ensures StubsOf(templates[i].connections) == {templates[hub].Stub()}
  {
  }

  lemma SpokeAdjacents(templates: seq<Template>, hub: int, i: int)
    requires HubTemplate(templates, hub) && 0 <= i < |templates| && i != hub
    ensures AdjacentsOf(templates[i].connections) == map[templates[hub].key := templates[hub].kind]
  {
    hide AdjacentsOf, KindsOf, HubTemplate, Closed, StubsOf;
    HubParts(templates, hub);
    HubIsClosed(templates, hub);
    SpokeStubs(templates, hub, i);
    var adjacents, kinds := AdjacentsOf(templates[i].connections), KindsOf(templates);
    KindsOfAll(templates);
    ClosedKindsAgree(templates, i);
    AdjacentsAreStubs(templates[i].connections, kinds);
    assert forall k :: k in adjacents <==> k == templates[hub].key;
  }

  // ---------------------------------------------------------------- delivery

  /**
  In a constellation with hub and machine every transport between any two stars
  is delivered, and accepted by at most two stars on the way: no branch with an
  error is reached.
   */
  lemma HubDelivers(stars: Constellation, hub: StarKey, machine: StarKey, from: StarKey, wave: Wave, to: StarKey)
    requires HubAndMachine(stars, hub, machine) && from in stars && to in stars
    ensures var fate := FateOf(stars, Parcel(from, Outgoing(Transport(to, 0, wave))));
            && fate.Delivered? && fate.star == to
            && fate.transport.hops <= 2
  {
    var t := Transport(to, 0, wave);
    match ToHyperwayResult(stars[from], t) {
      case Send(next, sent) =>
        assert next == to || next == hub;
        if next != to {
          assert FromHyperwayResult(stars[hub], sent) == Send(to, IncHops(sent));
          assert FateFrom(stars, to, IncHops(sent)) == Delivered(to, IncHops(IncHops(sent)));
        }
      case _ =>
    }
  }

  /** The only losses are waves whose recipient could not be located. */
  ghost predicate OnlyUnlocated(net: Net) {
    forall i :: 0 <= i < |net.lost| ==> net.lost[i].err == NotLocated
  }

  /** Every transport under way will be delivered. */
  ghost predicate AllOnTheirWay(stars: Constellation, net: Net) {
    forall i :: 0 <= i < |net.active| ==> OnItsWay(stars, net.active[i])
  }

  predicate OnItsWay(stars: Constellation, parcel: Parcel) {
    && parcel.star in stars
    && (parcel.job.HasTransport() ==> parcel.job.transport.hops <= MAX_HOPS && FateOf(stars, parcel).Delivered?)
  }

  lemma RecordKeepsWay(stars: Constellation, net: Net, i: nat, served: Served)
    requires OnlyUnlocated(net) && AllOnTheirWay(stars, net) && i < |net.active|
    requires served.Onward? ==> OnItsWay(stars, served.parcel)
    requires served.WithError? ==> served.loss.err == NotLocated
    ensures OnlyUnlocated(Record(net, i, served)) && AllOnTheirWay(stars, Record(net, i, served))
  {
    hide OnItsWay;
    var rest, next := Without(net.active, i), Record(net, i, served);
    assert forall j :: 0 <= j < |rest| ==> OnItsWay(stars, rest[j]);
  }

  lemma ServeStaysOnWay(stars: Constellation, parcel: Parcel)
    requires OnItsWay(stars, parcel) && !parcel.job.Locating?
    ensures Serve(stars, parcel).Onward? ==> OnItsWay(stars, Serve(stars, parcel).parcel)
    ensures !Serve(stars, parcel).WithError?
  {
    if parcel.job.HasTransport() {
      ServingFollowsFate(stars, parcel);
    }
  }

  /** Recipients are located on stars of this constellation. */
  predicate LocatedWithin(stars: Constellation, step: Step) {
    step.AnswerNext? && step.located.Ok? ==> step.located.value in stars
  }

  lemma StepStaysOnWay(stars: Constellation, hub: StarKey, machine: StarKey, net: Net, step: Step)
    requires HubAndMachine(stars, hub, machine) && Enabled(stars, net, step) && LocatedWithin(stars, step)
    requires OnlyUnlocated(net) && AllOnTheirWay(stars, net)
    ensures OnlyUnlocated(Apply(stars, net, step)) && AllOnTheirWay(stars, Apply(stars, net, step))
  {
    match step {
      case Submit(star, wave) =>
      case ServeNext(i) =>
        ServeStaysOnWay(stars, net.active[i]);
        RecordKeepsWay(stars, net, i, Serve(stars, net.active[i]));
      case AnswerNext(i, located) =>
        var parcel := net.active[i];
        if located.Ok? {
          HubDelivers(stars, hub, machine, parcel.star, parcel.job.wave, located.value);
        }
        RecordKeepsWay(stars, net, i, Answer(stars, parcel, located));
    }
  }

  lemma {:induction false} RunStaysOnWay(stars: Constellation, hub: StarKey, machine: StarKey, net: Net,
                                         steps: seq<Step>)
    requires HubAndMachine(stars, hub, machine) && AllEnabled(stars, net, steps)
    requires forall step :: step in steps ==> LocatedWithin(stars, step)
    requires OnlyUnlocated(net) && AllOnTheirWay(stars, net)
    ensures OnlyUnlocated(Run(stars, net, steps)) && AllOnTheirWay(stars, Run(stars, net, steps))
    decreases steps
  {
    if |steps| > 0 {
      hide HubAndMachine, OnlyUnlocated, AllOnTheirWay, Apply, Enabled, LocatedWithin;
      StepStaysOnWay(stars, hub, machine, net, steps[0]);
      RunStaysOnWay(stars, hub, machine, Apply(stars, net, steps[0]), steps[1..]);
    }
  }

  // ---------------------------------------------------------------- completion

  /** A locator that always answers, by the point alone. */
  function LocatedBy(where: Point -> StarKey): Locator {
    (wave: Wave) => Ok(where(wave.to))
  }

  ghost predicate StaysWithin(stars: Constellation, where: Point -> StarKey) {
    forall p :: where(p) in stars
  }

  /** Steps that bring a net to rest: no new waves, lookups answered, no wave lost, within the bound. */
  ghost predicate Completes(stars: Constellation, where: Point -> StarKey, net: Net, steps: seq<Step>) {
    && AllEnabled(stars, net, steps)
    && AnswersBy(stars, LocatedBy(where), net, steps)
    && (forall step :: step in steps ==> !step.Submit?)
    && |steps| <= TotalWork(net.active)
    && Run(stars, net, steps).active == []
    && Run(stars, net, steps).lost == net.lost
  }

  /** With the recipient located no step loses a wave. */
  lemma StepLosesNothing(stars: Constellation, net: Net, step: Step)
    requires AllOnTheirWay(stars, net) && Enabled(stars, net, step)
    requires step.AnswerNext? ==> step.located.Ok?
    ensures Apply(stars, net, step).lost == net.lost
  {
    if step.ServeNext? {
      assert OnItsWay(stars, net.active[step.i]);
      ServeStaysOnWay(stars, net.active[step.i]);
    }
  }

  /** What may be done next in a net that is not at rest. */
  function NextStep(where: Point -> StarKey, net: Net): Step
    requires |net.active| > 0
  {
    var job := net.active[0].job;
    if job.Locating? then AnswerNext(0, Ok(where(job.wave.to))) else ServeNext(0)
  }

  lemma NextStepIsEnabled(stars: Constellation, where: Point -> StarKey, net: Net)
    requires AllOnTheirWay(stars, net) && |net.active| > 0 && StaysWithin(stars, where)
    ensures var step := NextStep(where, net);
            && Enabled(stars, net, step) && LocatedWithin(stars, step) && !step.Submit?
            && (step.AnswerNext? ==> step.located == LocatedBy(where)(net.active[step.i].job.wave))
  {
    assert OnItsWay(stars, net.active[0]);
  }

  lemma CompletesStep(stars: Constellation, where: Point -> StarKey, net: Net, step: Step, rest: seq<Step>)
    requires Enabled(stars, net, step) && !step.Submit?
    requires step.AnswerNext? ==> step.located == LocatedBy(where)(net.active[step.i].job.wave)
    requires Apply(stars, net, step).lost == net.lost
    requires TotalWork(Apply(stars, net, step).active) < TotalWork(net.active)
    requires Completes(stars, where, Apply(stars, net, step), rest)
    ensures Completes(stars, where, net, [step] + rest)
  {
    hide Enabled, Apply, TotalWork, LocatedBy;
    assert ([step] + rest)[1..] == rest;
  }

  /** In a constellation with hub and machine every net of a run can be brought to rest, and no wave is lost. */
  lemma {:induction false} HubComesToRest(stars: Constellation, hub: StarKey, machine: StarKey,
                                          where: Point -> StarKey, net: Net)
    returns (steps: seq<Step>)
    requires HubAndMachine(stars, hub, machine) && Inv(net)
    requires OnlyUnlocated(net) && AllOnTheirWay(stars, net) && StaysWithin(stars, where)
    ensures Completes(stars, where, net, steps)
    decreases TotalWork(net.active)
  {
    if |net.active| == 0 {
      steps := [];
    } else {
      hide Enabled, Apply, TotalWork, Inv, OnlyUnlocated, AllOnTheirWay, Completes, LocatedWithin, HubAndMachine,
        LocatedBy;
      var step := NextStep(where, net);
      NextStepIsEnabled(stars, where, net);
      var next := Apply(stars, net, step);
      StepLessWork(stars, net, step);
      HubKeysAgree(stars, hub, machine);
      StepKeepsInv(stars, net, step);
      StepStaysOnWay(stars, hub, machine, net, step);
      StepLosesNothing(stars, net, step);
      var rest := HubComesToRest(stars, hub, machine, where, next);
      CompletesStep(stars, where, net, step, rest);
      steps := [step] + rest;
    }
  }

  lemma HubKeysAgree(stars: Constellation, hub: StarKey, machine: StarKey)
    requires HubAndMachine(stars, hub, machine)
    ensures KeysAgree(stars)
  {
  }

  /**
  Machines with a hub, from template to delivery: every run of the stars built
  from any hub template loses no wave but those whose recipient could not be
  located, and from wherever it is it can be brought to rest without losing
  another one.
   */
  lemma HubMachineDelivers(templates: seq<Template>, hub: int, machine: StarKey, stars: Constellation, steps: seq<Step>)
    requires HubTemplate(templates, hub) && NoStarNamed(templates, machine)
    requires BuiltFrom(stars, WithMachine(templates, machine))
    requires AllEnabled(stars, START, steps) && forall step :: step in steps ==> LocatedWithin(stars, step)
    ensures var net := Run(stars, START, steps);
            && OnlyUnlocated(net)
            && (forall where :: StaysWithin(stars, where) ==>
                  exists more :: Completes(stars, where, net, more))
            && Everywhere(net) == net.submitted
            && (forall i :: 0 <= i < |net.injected| ==> InjectionOk(net, net.injected[i]))
            && |steps| <= (MAX_WORK + 1) * Submissions(steps)
  {
    hide BuiltFrom, HubTemplate, AllEnabled, Run, InjectionOk, Collect, FateOf, LocatedWithin, Completes;
    HubParts(templates, hub);
    HubConstellation(stars, templates, hub, machine);
    var net, center := Run(stars, START, steps), templates[hub].key;
    RunStaysOnWay(stars, center, machine, START, steps);
    EveryRunIsSafe(stars, steps);
    StartIsSafe();
    RunsAreBounded(stars, START, steps);
    RunKeepsInv(stars, START, steps);
    hide HubAndMachine, Inv, OnlyUnlocated, AllOnTheirWay, Everywhere, TotalWork, Submissions;
    forall where | StaysWithin(stars, where)
      ensures exists more :: Completes(stars, where, net, more)
    {
      var more := HubComesToRest(stars, center, machine, where, net);
    }
  }

  /** All answers so far are those of the locator. */
  ghost predicate AnswersAre(net: Net, where: Point -> StarKey) {
    forall answer :: answer in net.answers ==> answer.1 == where(answer.0)
  }

  lemma StepAnswersAre(stars: Constellation, net: Net, step: Step, where: Point -> StarKey)
    requires Enabled(stars, net, step) && AnswersAre(net, where)
    requires step.AnswerNext? ==> step.located == LocatedBy(where)(net.active[step.i].job.wave)
    ensures AnswersAre(Apply(stars, net, step), where)
  {
  }

  lemma {:induction false} LocatedRun(stars: Constellation, hub: StarKey, machine: StarKey, where: Point -> StarKey,
                                      net: Net, steps: seq<Step>)
    requires HubAndMachine(stars, hub, machine) && StaysWithin(stars, where)
    requires AllEnabled(stars, net, steps) && AnswersBy(stars, LocatedBy(where), net, steps)
    requires OnlyUnlocated(net) && AllOnTheirWay(stars, net) && AnswersAre(net, where)
    ensures AnswersAre(Run(stars, net, steps), where)
    ensures Run(stars, net, steps).lost == net.lost
    decreases steps
  {
    if |steps| > 0 {
      hide HubAndMachine, OnlyUnlocated, AllOnTheirWay, AnswersAre, Apply, Enabled;
      var step, next := steps[0], Apply(stars, net, steps[0]);
      StepStaysOnWay(stars, hub, machine, net, step);
      StepLosesNothing(stars, net, step);
      StepAnswersAre(stars, net, step, where);
      LocatedRun(stars, hub, machine, where, next, steps[1..]);
    }
  }

  /**
  When every recipient can be located, no wave is lost in any run; each is
  injected where its recipient is located, and once the run has come to rest
  every wave submitted has been handled or injected.
   */
  lemma HubMachineCompletes(templates: seq<Template>, hub: int, machine: StarKey, stars: Constellation,
                            where: Point -> StarKey, steps: seq<Step>)
    requires HubTemplate(templates, hub) && NoStarNamed(templates, machine)
    requires BuiltFrom(stars, WithMachine(templates, machine)) && StaysWithin(stars, where)
    requires AllEnabled(stars, START, steps) && AnswersBy(stars, LocatedBy(where), START, steps)
    ensures var net := Run(stars, START, steps);
            && net.lost == []
            && (forall i :: 0 <= i < |net.injected| ==> net.injected[i].star == where(net.injected[i].wave.to))
            && (net.active == [] ==>
                  net.submitted == Collect(net.handled, SameWave) + Collect(net.injected, InjectionWave))
  {
    hide BuiltFrom, HubTemplate, AllEnabled, AnswersBy, Run, LocatedBy;
    HubParts(templates, hub);
    HubConstellation(stars, templates, hub, machine);
    var net := Run(stars, START, steps);
    LocatedRun(stars, templates[hub].key, machine, where, START, steps);
    EveryRunIsSafe(stars, steps);
    hide HubAndMachine;
    forall i | 0 <= i < |net.injected|
      ensures net.injected[i].star == where(net.injected[i].wave.to)
    {
      assert InjectionOk(net, net.injected[i]);
    }
    if net.active == [] {
      assert Collect(net.active, ParcelWave) == multiset{} && Collect(net.lost, LossWave) == multiset{};
    }
  }

  // ---------------------------------------------------------------- the default machine

  const CENTRAL := StarKey("central", "central", 0)
  const NEXUS := StarKey("central", "nexus", 0)
  const SUPER := StarKey("central", "super", 0)
  const MAELSTROM := StarKey("central", "maelstrom", 0)
  const SCRIBE := StarKey("central", "scribe", 0)
  const JUMP := StarKey("central", "jump", 0)
  const FOLD := StarKey("central", "fold", 0)

  /** The seven stars of the default machine, joined to each other but not yet in a list. */
  method DefaultStars()
    returns (central: StarTemplate, nexus: StarTemplate, supe: StarTemplate, maelstrom: StarTemplate,
             scribe: StarTemplate, jump: StarTemplate, fold: StarTemplate)
    ensures fresh({central, nexus, supe, maelstrom, scribe, jump, fold})
    ensures central.View() == DefaultSpoke(CENTRAL, Central)
    ensures nexus.View() == Template(NEXUS, Nexus, DefaultReceivers())
    ensures supe.View() == DefaultSpoke(SUPER, Super)
    ensures maelstrom.View() == DefaultSpoke(MAELSTROM, Maelstrom)
    ensures scribe.View() == DefaultSpoke(SCRIBE, Scribe)
    ensures jump.View() == DefaultSpoke(JUMP, Jump)
    ensures fold.View() == DefaultSpoke(FOLD, Fold)
  {
    central := new StarTemplate(CENTRAL, Central);
    nexus := new StarTemplate(NEXUS, Nexus);
    supe := new StarTemplate(SUPER, Super);
    maelstrom := new StarTemplate(MAELSTROM, Maelstrom);
    scribe := new StarTemplate(SCRIBE, Scribe);
    jump := new StarTemplate(JUMP, Jump);
    fold := new StarTemplate(FOLD, Fold);

    nexus.Receive(central.ToStub());
    nexus.Receive(supe.ToStub());
    nexus.Receive(maelstrom.ToStub());
    nexus.Receive(scribe.ToStub());
    nexus.Receive(jump.ToStub());
    nexus.Receive(fold.ToStub());
    assert nexus.connections == DefaultReceivers();

    central.Connect(nexus.ToStub());
    supe.Connect(nexus.ToStub());
    maelstrom.Connect(nexus.ToStub());
    scribe.Connect(nexus.ToStub());
    jump.Connect(nexus.ToStub());
    fold.Connect(nexus.ToStub());
  }

  method DefaultTemplate() returns (stars: seq<StarTemplate>)
    ensures fresh(stars) && |stars| == 7
    ensures stars[0].key == StarKey("central", "central", 0) && stars[0].kind == Central
    ensures stars[1].key == StarKey("central", "nexus", 0) && stars[1].kind == Nexus
    ensures stars[2].key == StarKey("central", "super", 0) && stars[2].kind == Super
    ensures stars[3].key == StarKey("central", "maelstrom", 0) && stars[3].kind == Maelstrom
    ensures stars[4].key == StarKey("central", "scribe", 0) && stars[4].kind == Scribe
    ensures stars[5].key == StarKey("central", "jump", 0) && stars[5].kind == Jump
    ensures stars[6].key == StarKey("central", "fold", 0) && stars[6].kind == Fold
    ensures Views(stars) == DefaultViews()
    ensures HubTemplate(Views(stars), 1)
    ensures Dual(Views(stars))
  {
    hide *;
    var central, nexus, supe, maelstrom, scribe, jump, fold := DefaultStars();
    ghost var views := DefaultViews();
    DefaultViewsListed();
    stars := [];
    stars := stars + [central];
    stars := stars + [nexus];
    stars := stars + [supe];
    stars := stars + [maelstrom];
    assert stars == [central, nexus, supe, maelstrom];
    stars := stars + [scribe];
    stars := stars + [jump];
    stars := stars + [fold];
    assert stars == [central, nexus, supe, maelstrom, scribe, jump, fold];
    ViewsAre(stars, views);
    DefaultIsHub();
    DefaultViewsAreNamed();
    ViewsHaveKeys(stars);
  }

  function DefaultSpoke(key: StarKey, kind: StarSub): Template {
    Template(key, kind, [Connector(StarStub(NEXUS, Nexus))])
  }

  function DefaultReceivers(): seq<StarCon> {
    [Receiver(StarStub(CENTRAL, Central)), Receiver(StarStub(SUPER, Super)),
     Receiver(StarStub(MAELSTROM, Maelstrom)), Receiver(StarStub(SCRIBE, Scribe)),
     Receiver(StarStub(JUMP, Jump)), Receiver(StarStub(FOLD, Fold))]
  }

  function DefaultSpokes(): seq<Template> {
    [DefaultSpoke(CENTRAL, Central), DefaultSpoke(SUPER, Super), DefaultSpoke(MAELSTROM, Maelstrom),
     DefaultSpoke(SCRIBE, Scribe), DefaultSpoke(JUMP, Jump), DefaultSpoke(FOLD, Fold)]
  }

  /** Spokes around a hub that receives each of them. */
  function AroundHub(spokes: seq<Template>, hub: StarStub, at: nat): (all: seq<Template>)
    requires at <= |spokes|
    ensures |all| == |spokes| + 1
    ensures all[at] == Template(hub.key, hub.kind, Receivers(spokes))
    ensures forall j {:trigger all[j]} :: 0 <= j < |all| && j != at ==> all[j] == spokes[SpokeIndex(j, at)]
  {
    seq(|spokes| + 1, j requires 0 <= j < |spokes| + 1 =>
      if j == at then Template(hub.key, hub.kind, Receivers(spokes)) else spokes[SpokeIndex(j, at)])
  }

  function SpokeIndex(j: int, at: int): int {
    if j < at then j else j - 1
  }

  predicate SpokesOf(spokes: seq<Template>, hub: StarStub) {
    forall i | 0 <= i < |spokes| :: spokes[i].connections == [Connector(hub)]
  }

  lemma AroundHubStubs(spokes: seq<Template>, hub: StarStub, at: nat, stub: StarStub)
    requires at <= |spokes|
    ensures var all := AroundHub(spokes, hub, at);
            stub in StubsOf(all[at].connections) <==> exists j :: 0 <= j < |all| && j != at && stub == all[j].Stub()
  {
    hide AroundHub;
    var all := AroundHub(spokes, hub, at);
    if stub in StubsOf(all[at].connections) {
      var i :| 0 <= i < |spokes| && Receivers(spokes)[i].stub == stub;
      var j := if i < at then i else i + 1;
      assert SpokeIndex(j, at) == i && all[j] == spokes[i];
    }
    if j :| 0 <= j < |all| && j != at && stub == all[j].Stub() {
      assert Receivers(spokes)[SpokeIndex(j, at)].stub == stub;
    }
  }

  lemma AroundHubDual(spokes: seq<Template>, hub: StarStub, at: nat)
    requires at <= |spokes| && SpokesOf(spokes, hub) && NoStarNamed(spokes, hub.key)
    ensures Dual(AroundHub(spokes, hub, at))
  {
    hide AroundHub;
    var all := AroundHub(spokes, hub, at);
    forall i, j | 0 <= i < |all| && 0 <= j < |all|
      ensures Connector(all[j].Stub()) in all[i].connections <==> Receiver(all[i].Stub()) in all[j].connections
    {
      if i != at && j == at {
        assert Receivers(spokes)[SpokeIndex(i, at)] == Receiver(all[i].Stub());
        assert all[i].connections[0] == Connector(all[j].Stub());
      } else if i == at && j == at {
        assert Receiver(hub) !in Receivers(spokes);
      }
    }
  }

  /** Any such arrangement is a hub template with dual connections. */
  lemma AroundHubIsHub(spokes: seq<Template>, hub: StarStub, at: nat)
    requires at <= |spokes| && SpokesOf(spokes, hub) && hub.kind.IsForwarder()
    requires DistinctKeys(spokes) && NoStarNamed(spokes, hub.key)
    ensures HubTemplate(AroundHub(spokes, hub, at), at) && Dual(AroundHub(spokes, hub, at))
  {
    AroundHubDual(spokes, hub, at);
    hide AroundHub, Dual;
    var all := AroundHub(spokes, hub, at);
    forall stub
      ensures stub in StubsOf(all[at].connections) <==> exists j :: 0 <= j < |all| && j != at && stub == all[j].Stub()
    {
      AroundHubStubs(spokes, hub, at, stub);
    }
    forall j | 0 <= j < |all| && j != at
      ensures StubsOf(all[j].connections) == {hub}
    {
      assert all[j].connections[0].stub == hub;
    }
    assert DistinctKeys(all);
  }

  function DefaultViews(): seq<Template> {
    [DefaultSpoke(CENTRAL, Central), Template(NEXUS, Nexus, DefaultReceivers()),
     DefaultSpoke(SUPER, Super), DefaultSpoke(MAELSTROM, Maelstrom), DefaultSpoke(SCRIBE, Scribe),
     DefaultSpoke(JUMP, Jump), DefaultSpoke(FOLD, Fold)]
  }

  lemma DefaultViewsListed()
    ensures var views := DefaultViews();
            && |views| == 7
            && views[0] == DefaultSpoke(CENTRAL, Central) && views[1] == Template(NEXUS, Nexus, DefaultReceivers())
            && views[2] == DefaultSpoke(SUPER, Super) && views[3] == DefaultSpoke(MAELSTROM, Maelstrom)
            && views[4] == DefaultSpoke(SCRIBE, Scribe) && views[5] == DefaultSpoke(JUMP, Jump)
            && views[6] == DefaultSpoke(FOLD, Fold)
  {
  }

  lemma ViewsAre(stars: seq<StarTemplate>, views: seq<Template>)
    requires |stars| == |views| && forall i :: 0 <= i < |stars| ==> stars[i].View() == views[i]
    ensures Views(stars) == views
  {
  }

  lemma ViewsHaveKeys(stars: seq<StarTemplate>)
    ensures forall i :: 0 <= i < |stars| ==>
              Views(stars)[i].key == stars[i].key && Views(stars)[i].kind == stars[i].kind
  {
  }

  /** The seven stars by name: the hub receives the others, which connect to it. */
  lemma DefaultViewsAreNamed()
    ensures var views := DefaultViews();
            && |views| == 7
            && views[0].key == StarKey("central", "central", 0) && views[0].kind == Central
            && views[1].key == StarKey("central", "nexus", 0) && views[1].kind == Nexus
            && views[2].key == StarKey("central", "super", 0) && views[2].kind == Super
            && views[3].key == StarKey("central", "maelstrom", 0) && views[3].kind == Maelstrom
            && views[4].key == StarKey("central", "scribe", 0) && views[4].kind == Scribe
            && views[5].key == StarKey("central", "jump", 0) && views[5].kind == Jump
            && views[6].key == StarKey("central", "fold", 0) && views[6].kind == Fold
            && views[1].connections ==
               [Receiver(StarStub(views[0].key, Central)), Receiver(StarStub(views[2].key, Super)),
                Receiver(StarStub(views[3].key, Maelstrom)), Receiver(StarStub(views[4].key, Scribe)),
                Receiver(StarStub(views[5].key, Jump)), Receiver(StarStub(views[6].key, Fold))]
            && forall i :: 0 <= i < 7 && i != 1 ==> views[i].connections == [Connector(StarStub(views[1].key, Nexus))]
  {
  }

  lemma DefaultIsHub()
    ensures |DefaultViews()| == 7
    ensures HubTemplate(DefaultViews(), 1) && Dual(DefaultViews())
  {
    hide HubTemplate, Dual;
    assert DistinctKeys(DefaultSpokes());
    assert DefaultViews()[1].connections == Receivers(DefaultSpokes());
    assert DefaultViews() == AroundHub(DefaultSpokes(), StarStub(NEXUS, Nexus), 1);
    AroundHubIsHub(DefaultSpokes(), StarStub(NEXUS, Nexus), 1);
  }
}
