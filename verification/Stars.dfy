/**
Stars: how one star handles the waves and transports that reach it.

HyperStar is the object whose message loop handles the calls; its queues are
sequences.  What a call does is also given by functions on values, which the
fabric and the topology results reason about, and each method is proved to do
what its function says.

A star's point is identified with its key: the key's text is the route of the
point, and the text is not part of this model.
 */
module Stars {
  import opened Outcomes
  import opened Points

  datatype StarSub = Central | Super | Nexus | Maelstrom | Scribe | Jump | Fold | Machine {
    predicate IsForwarder() {
      match this
      case Central | Machine => false
      case _ => true
    }
  }

  /** All kinds of stars relay but the central star and the machine star. */
  lemma ForwarderKinds(kind: StarSub)
    ensures kind.IsForwarder() <==> kind in {Super, Nexus, Maelstrom, Scribe, Jump, Fold}
  {
  }

  datatype StarKey = StarKey(constellation: string, name: string, index: nat)

  datatype StarStub = StarStub(key: StarKey, kind: StarSub)

  /** A wave with a single recipient. */
  datatype Wave = Wave(id: nat, directed: bool, to: Point)

  /** The signal that carries a wave from star to star; `hops` is a 16-bit counter. */
  datatype Transport = Transport(to: StarKey, hops: nat, wave: Wave)

  const MAX_HOPS := 255
  const HOPS_MODULUS := 0x1_0000

  const GLOBAL_EXEC: Point := PointDef(Global, [Space("executor")])

  datatype StarErr =
    | TransportSignalExceededMaxHops
    | AttemptToForwardATransportOnANonForwardingStar
    | MissingAdjacentForwarder
    | SeveralForwarders
    | NotLocated

  /** What a star is built with: its own stub and its neighbours. */
  datatype Star = Star(key: StarKey, kind: StarSub, adjacents: map<StarKey, StarSub>, forwarders: seq<StarKey>) {
    /** `forwarders` lists the forwarding neighbours, each once, in any order. */
    ghost predicate Built() {
      && (forall k :: k in forwarders <==> k in adjacents && adjacents[k].IsForwarder())
      && (forall i, j :: 0 <= i < j < |forwarders| ==> forwarders[i] != forwarders[j])
    }
  }

  /** What becomes of a transport that a star handles. */
  datatype Disposition =
    | Inject(transport: Transport)
    | Send(next: StarKey, transport: Transport)
    | Drop(transport: Transport, err: StarErr)

  /** Where a star sends a transport for `to`. */
  function NextStar(star: Star, to: StarKey): Result<StarKey, StarErr> {
    if star.key == to then Ok(star.key)
    else if to in star.adjacents then Ok(to)
    else if |star.forwarders| == 1 then Ok(star.forwarders[0])
    else if |star.forwarders| == 0 then Err(MissingAdjacentForwarder)
    else Err(SeveralForwarders)
  }

  function ToHyperwayResult(star: Star, transport: Transport): Disposition {
    match NextStar(star, transport.to)
    case Ok(next) => Send(next, transport)
    case Err(err) => Drop(transport, err)
  }

  function IncHops(transport: Transport): Transport {
    transport.(hops := (transport.hops + 1) % HOPS_MODULUS)
  }

  function FromHyperwayResult(star: Star, received: Transport): Disposition {
    var transport := IncHops(received);
    if transport.hops > MAX_HOPS then Drop(transport, TransportSignalExceededMaxHops)
    else if transport.to == star.key then Inject(transport)
    else if star.kind.IsForwarder() then ToHyperwayResult(star, transport)
    else Drop(transport, AttemptToForwardATransportOnANonForwardingStar)
  }

  /** Waves for the global executor are handled at once, all others are sharded. */
  predicate GoesToGlobal(wave: Wave) {
    wave.directed && wave.to == GLOBAL_EXEC
  }

  datatype ShardResult = InjectHere | Carry(transport: Transport) | CannotShard(err: StarErr)

  function ShardTo(star: Star, wave: Wave, located: Result<StarKey, StarErr>): ShardResult {
    match located
    case Err(err) => CannotShard(err)
    case Ok(location) => if location == star.key then InjectHere else Carry(Transport(location, 0, wave))
  }

  class HyperStar {
    const key: StarKey
    const kind: StarSub
    const adjacents: map<StarKey, StarSub>
    var forwarders: seq<StarKey>
    // Calls this star sends to its own message loop.
    var shards: seq<Wave>
    var outgoing: seq<Transport>
    // Hops handed to the hyperway, each with the one star it is addressed to.
    var hyperway: seq<(StarKey, Transport)>
    // What was injected into this star's layers.
    var injectedTransports: seq<Transport>
    var injectedWaves: seq<Wave>
    // Waves given to the global handler.
    var handled: seq<Wave>

    ghost predicate Valid()
      reads this
    {
      Value().Built()
    }

    function Value(): Star
      reads this
    {
      Star(key, kind, adjacents, forwarders)
    }

    constructor (key: StarKey, kind: StarSub, adjacents: map<StarKey, StarSub>)
      ensures Valid() && Value() == Star(key, kind, adjacents, forwarders)
      ensures shards == [] && outgoing == [] && hyperway == []
      ensures injectedTransports == [] && injectedWaves == [] && handled == []
    {
      this.key, this.kind, this.adjacents := key, kind, adjacents;
      shards, outgoing, hyperway, injectedTransports, injectedWaves, handled := [], [], [], [], [], [];
      forwarders := [];
      new;
      var points := adjacents.Keys;
      while points != {}
        invariant points <= adjacents.Keys
        invariant forall k :: k in forwarders <==> k in adjacents.Keys - points && adjacents[k].IsForwarder()
        invariant forall i, j :: 0 <= i < j < |forwarders| ==> forwarders[i] != forwarders[j]
        invariant shards == [] && outgoing == [] && hyperway == []
        invariant injectedTransports == [] && injectedWaves == [] && handled == []
        decreases points
      {
        var point :| point in points;
        if adjacents[point].IsForwarder() {
          forwarders := forwarders + [point];
        }
        points := points - {point};
      }
    }

    method ToHyperway(transport: Transport) returns (r: Result<(), StarErr>)
      modifies this`hyperway
      ensures match ToHyperwayResult(Value(), transport)
              case Send(next, sent) => r.Ok? && hyperway == old(hyperway) + [(next, sent)]
              case Drop(_, err) => r == Err(err) && hyperway == old(hyperway)
              case Inject(_) => false
      // the same in full: to itself, else to the neighbour it is for, else to the only forwarder
      ensures key == transport.to ==> r.Ok? && hyperway == old(hyperway) + [(key, transport)]
      ensures key != transport.to && transport.to in adjacents ==>
                r.Ok? && hyperway == old(hyperway) + [(transport.to, transport)]
      ensures key != transport.to && transport.to !in adjacents ==>
                match |forwarders|
                case 0 => r == Err(MissingAdjacentForwarder) && hyperway == old(hyperway)
                case 1 => r.Ok? && hyperway == old(hyperway) + [(forwarders[0], transport)]
                case _ => r == Err(SeveralForwarders) && hyperway == old(hyperway)
    {
      if key == transport.to {
        hyperway := hyperway + [(key, transport)];
        return Ok(());
      } else if transport.to in adjacents {
        hyperway := hyperway + [(transport.to, transport)];
        return Ok(());
      } else if |forwarders| == 1 {
        hyperway := hyperway + [(forwarders[0], transport)];
        return Ok(());
      } else if |forwarders| == 0 {
        return Err(MissingAdjacentForwarder);
      } else {
        return Err(SeveralForwarders);
      }
    }

    method Forward(transport: Transport) returns (r: Result<(), StarErr>)
      modifies this`hyperway
      ensures !kind.IsForwarder() ==>
                r == Err(AttemptToForwardATransportOnANonForwardingStar) && hyperway == old(hyperway)
      ensures kind.IsForwarder() ==>
                match ToHyperwayResult(Value(), transport)
                case Send(next, sent) => r.Ok? && hyperway == old(hyperway) + [(next, sent)]
                case Drop(_, err) => r == Err(err) && hyperway == old(hyperway)
                case Inject(_) => false
    {
      if kind.IsForwarder() {
        r := ToHyperway(transport);
      } else {
        r := Err(AttemptToForwardATransportOnANonForwardingStar);
      }
    }

    method FromHyperway(received: Transport) returns (r: Result<(), StarErr>)
      modifies this`hyperway, this`injectedTransports
      ensures match FromHyperwayResult(Value(), received)
              case Inject(t) =>
                r.Ok? && injectedTransports == old(injectedTransports) + [t] && hyperway == old(hyperway)
              case Send(next, t) =>
                r.Ok? && injectedTransports == old(injectedTransports) && hyperway == old(hyperway) + [(next, t)]
              case Drop(_, err) =>
                r == Err(err) && injectedTransports == old(injectedTransports) && hyperway == old(hyperway)
      // the same in full: the limit first, then the star itself, then its kind
      ensures received.hops < 65535 ==>
                var counted := received.(hops := received.hops + 1);
                && (r == Err(TransportSignalExceededMaxHops) <==> received.hops >= 255)
                && (received.hops < 255 && received.to == key ==>
                      r.Ok? && injectedTransports == old(injectedTransports) + [counted])
                && (received.hops >= 255 || received.to != key ==> injectedTransports == old(injectedTransports))
                && (received.hops < 255 && received.to != key && kind in {Central, Machine} ==>
                      r == Err(AttemptToForwardATransportOnANonForwardingStar))
                && (received.hops < 255 && received.to != key && kind !in {Central, Machine}
                    && received.to in adjacents ==>
                      r.Ok? && hyperway == old(hyperway) + [(received.to, counted)])
                && (received.hops < 255 && received.to != key && kind !in {Central, Machine}
                    && received.to !in adjacents && |forwarders| == 1 ==>
                      r.Ok? && hyperway == old(hyperway) + [(forwarders[0], counted)])
      ensures received.hops == 65535 && received.to == key ==>
                r.Ok? && injectedTransports == old(injectedTransports) + [received.(hops := 0)]
    {
      var transport := received;
      transport := transport.(hops := (transport.hops + 1) % HOPS_MODULUS);
      if transport.hops > MAX_HOPS {
        return Err(TransportSignalExceededMaxHops);
      }
      if transport.to == key {
        injectedTransports := injectedTransports + [transport];
        return Ok(());
      } else {
        r := Forward(transport);
      }
    }

    method ToGravity(wave: Wave)
      modifies this`handled, this`shards
      ensures wave.directed && wave.to == PointDef(Global, [Space("executor")]) ==>
                handled == old(handled) + [wave] && shards == old(shards)
      ensures !(wave.directed && wave.to == PointDef(Global, [Space("executor")])) ==>
                handled == old(handled) && shards == old(shards) + [wave]
      ensures GoesToGlobal(wave) <==> handled != old(handled)
    {
      if wave.directed && wave.to == GLOBAL_EXEC {
        handled := handled + [wave];
      } else {
        shards := shards + [wave];
      }
    }

    /** What a spawned shard call does once the locator has answered. */
    method Shard(wave: Wave, located: Result<StarKey, StarErr>) returns (r: Result<(), StarErr>)
      modifies this`injectedWaves, this`outgoing
      ensures match ShardTo(Value(), wave, located)
              case InjectHere => r.Ok? && injectedWaves == old(injectedWaves) + [wave] && outgoing == old(outgoing)
              case Carry(t) => r.Ok? && outgoing == old(outgoing) + [t] && injectedWaves == old(injectedWaves)
              case CannotShard(err) => r == Err(err) && outgoing == old(outgoing) && injectedWaves == old(injectedWaves)
      ensures located == Ok(key) ==>
                r.Ok? && injectedWaves == old(injectedWaves) + [wave] && outgoing == old(outgoing)
      ensures located.Ok? && located.value != key ==>
                && r.Ok? && injectedWaves == old(injectedWaves)
                && outgoing == old(outgoing) + [Transport(located.value, 0, wave)]
      ensures located.Err? ==>
                r == Err(located.error) && injectedWaves == old(injectedWaves) && outgoing == old(outgoing)
    {
      if located.Err? {
        return Err(located.error);
      }
      if located.value == key {
        injectedWaves := injectedWaves + [wave];
      } else {
        outgoing := outgoing + [Transport(located.value, 0, wave)];
      }
      return Ok(());
    }
  }

  // ---------------------------------------------------------------- the way of a transport

  type Constellation = map<StarKey, Star>

  datatype Fate =
    | Delivered(star: StarKey, transport: Transport)
    | Lost(star: StarKey, transport: Transport, err: StarErr)
    | Stranded(star: StarKey, transport: Transport)

  /** What finally becomes of a transport that arrives at a star, whatever the connections. */
  function FateFrom(stars: Constellation, at: StarKey, transport: Transport): (fate: Fate)
    requires transport.hops <= MAX_HOPS
    ensures fate.transport.to == transport.to && fate.transport.wave == transport.wave
    ensures fate.Delivered? ==> transport.hops < fate.transport.hops <= MAX_HOPS
    ensures fate.Delivered? && KeysAgree(stars) ==> fate.star == transport.to
    ensures fate.Stranded? ==> fate.star !in stars
    decreases MAX_HOPS - transport.hops
  {
    if at !in stars then Stranded(at, transport)
    else
      match FromHyperwayResult(stars[at], transport)
      case Inject(t) => Delivered(at, t)
      case Drop(t, err) => Lost(at, t, err)
      case Send(next, t) => FateFrom(stars, next, t)
  }

  /** The stars whose from_hyperway accepts the transport, in order. */
  function Trail(stars: Constellation, at: StarKey, transport: Transport): (trail: seq<StarKey>)
    requires transport.hops <= MAX_HOPS
    ensures |trail| <= 255 - transport.hops
    decreases MAX_HOPS - transport.hops
  {
    if at !in stars || transport.hops == MAX_HOPS then []
    else
      match FromHyperwayResult(stars[at], transport)
      case Send(next, t) => [at] + Trail(stars, next, t)
      case _ => [at]
  }

  /** The star after `n` relays on the way to `to`, if the relaying gets that far. */
  function Relayed(stars: Constellation, at: StarKey, to: StarKey, n: nat): Option<StarKey> {
    if n == 0 then Some(at)
    else
      match Relayed(stars, at, to, n - 1)
      case None => None
      case Some(star) =>
        if star == to || star !in stars || !stars[star].kind.IsForwarder() then None
        else
          match NextStar(stars[star], to)
          case Err(_) => None
          case Ok(next) => Some(next)
  }

  predicate KeysAgree(stars: Constellation) {
    forall k :: k in stars ==> stars[k].key == k
  }

  lemma {:induction false} RelayedFromNext(stars: Constellation, at: StarKey, to: StarKey, n: nat)
    requires n > 0 && Relayed(stars, at, to, 1).Some?
    ensures Relayed(stars, at, to, n) == Relayed(stars, Relayed(stars, at, to, 1).value, to, n - 1)
  {
    if n > 1 {
      RelayedFromNext(stars, at, to, n - 1);
    }
  }

  lemma {:induction false} RelayedStopsEarly(stars: Constellation, at: StarKey, to: StarKey, m: nat, n: nat)
    requires m <= n && Relayed(stars, at, to, n).Some?
    ensures Relayed(stars, at, to, m).Some?
    decreases n - m
  {
    if m < n {
      RelayedStopsEarly(stars, at, to, m + 1, n);
    }
  }

  /**
  Exactly when a transport is delivered: the relaying reaches the star it is
  for, before the hop limit.
   */
  lemma {:induction false} DeliveredIffRelayed(stars: Constellation, at: StarKey, transport: Transport)
    requires KeysAgree(stars) && transport.to in stars && transport.hops <= MAX_HOPS
    ensures FateFrom(stars, at, transport).Delivered? <==>
            exists n: nat :: n < MAX_HOPS - transport.hops && Relayed(stars, at, transport.to, n) == Some(transport.to)
    decreases MAX_HOPS - transport.hops
  {
    var to := transport.to;
    if at == to && transport.hops < MAX_HOPS {
      assert Relayed(stars, at, to, 0) == Some(to);
    } else if at in stars && transport.hops < MAX_HOPS && Relayed(stars, at, to, 1).Some? {
      var next := Relayed(stars, at, to, 1).value;
      assert Relayed(stars, at, to, 0) == Some(at);
      var t := IncHops(transport);
      assert FromHyperwayResult(stars[at], transport) == Send(next, t);
      DeliveredIffRelayed(stars, next, t);
      if FateFrom(stars, next, t).Delivered? {
        var n: nat :| n < MAX_HOPS - t.hops && Relayed(stars, next, to, n) == Some(to);
        RelayedFromNext(stars, at, to, n + 1);
        assert Relayed(stars, at, to, n + 1) == Some(to);
      }
      if n: nat :| n < MAX_HOPS - transport.hops && Relayed(stars, at, to, n) == Some(to) {
        RelayedFromNext(stars, at, to, n);
        assert n - 1 < MAX_HOPS - t.hops && Relayed(stars, next, to, n - 1) == Some(to);
      }
    } else if transport.hops < MAX_HOPS {
      assert Relayed(stars, at, to, 0) == Some(at);
      assert Relayed(stars, at, to, 1).None?;
      forall n: nat
        ensures Relayed(stars, at, to, n) != Some(to)
      {
        if Relayed(stars, at, to, n) == Some(to) && n > 0 {
          RelayedStopsEarly(stars, at, to, 1, n);
        }
      }
    }
  }

  /** The hop counter counts the stars that accepted the transport. */
  lemma {:induction false} TrailCountsHops(stars: Constellation, at: StarKey, transport: Transport)
    requires transport.hops <= MAX_HOPS && KeysAgree(stars)
    ensures var fate, trail := FateFrom(stars, at, transport), Trail(stars, at, transport);
            && (fate.Delivered? ==> fate.transport.hops == transport.hops + |trail|)
            && (fate.Delivered? ==> trail != [] && trail[|trail| - 1] == transport.to)
            && (fate.Lost? && fate.err != TransportSignalExceededMaxHops ==>
                  fate.transport.hops == transport.hops + |trail|)
            && (fate.Lost? && fate.err == TransportSignalExceededMaxHops ==> |trail| == MAX_HOPS - transport.hops)
    decreases MAX_HOPS - transport.hops
  {
    if at in stars {
      OneMoreHop(stars[at], transport);
      hide FromHyperwayResult, IncHops;
      if transport.hops < MAX_HOPS {
        match FromHyperwayResult(stars[at], transport) {
          case Send(next, t) => TrailCountsHops(stars, next, t);
          case _ =>
        }
      }
    }
  }

  /** What from_hyperway lets through has one hop more; at the limit it lets nothing through. */
  lemma OneMoreHop(star: Star, transport: Transport)
    requires transport.hops <= MAX_HOPS
    ensures match FromHyperwayResult(star, transport)
            case Inject(t) => t.hops == transport.hops + 1 <= MAX_HOPS && t.to == transport.to == star.key
            case Send(_, t) => t.hops == transport.hops + 1 <= MAX_HOPS && t.to == transport.to
            case Drop(t, err) =>
              && t.hops == transport.hops + 1
              && (err == TransportSignalExceededMaxHops <==> transport.hops == MAX_HOPS)
  {
  }

  /** The bound on the trail is reached: two forwarders that only know each other. */
  lemma {:induction false} PingPong(stars: Constellation, a: StarKey, b: StarKey, transport: Transport)
    requires a in stars && b in stars && KeysAgree(stars) && transport.hops <= MAX_HOPS
    requires stars[a].kind.IsForwarder() && stars[a].forwarders == [b]
    requires stars[b].kind.IsForwarder() && stars[b].forwarders == [a]
    requires transport.to !in {a, b} && transport.to !in stars[a].adjacents && transport.to !in stars[b].adjacents
    ensures |Trail(stars, a, transport)| == MAX_HOPS - transport.hops
    ensures FateFrom(stars, a, transport).Lost? && FateFrom(stars, a, transport).err == TransportSignalExceededMaxHops
    decreases MAX_HOPS - transport.hops
  {
    if transport.hops < MAX_HOPS {
      PingPong(stars, b, a, IncHops(transport));
    }
  }

  // ---------------------------------------------------------------- the hop limit and routing loops

  lemma {:induction false} RelayedAgain(stars: Constellation, at: StarKey, to: StarKey, i: nat, j: nat, k: nat)
    requires Relayed(stars, at, to, i) == Relayed(stars, at, to, j)
    ensures Relayed(stars, at, to, i + k) == Relayed(stars, at, to, j + k)
  {
    if k > 0 {
      RelayedAgain(stars, at, to, i, j, k - 1);
    }
  }

  /** The stars met before relay `n`. */
  function Met(stars: Constellation, at: StarKey, to: StarKey, n: nat): set<StarKey> {
    if n == 0 then {}
    else
      match Relayed(stars, at, to, n - 1)
      case None => Met(stars, at, to, n - 1)
      case Some(star) => Met(stars, at, to, n - 1) + {star}
  }

  lemma {:induction false} MetAt(stars: Constellation, at: StarKey, to: StarKey, n: nat, star: StarKey) returns (i: nat)
    requires star in Met(stars, at, to, n)
    ensures i < n && Relayed(stars, at, to, i) == Some(star)
  {
    if Relayed(stars, at, to, n - 1) == Some(star) {
      i := n - 1;
    } else {
      i := MetAt(stars, at, to, n - 1, star);
    }
  }

  lemma {:induction false} MetCount(stars: Constellation, at: StarKey, to: StarKey, n: nat)
    requires forall i: nat :: i < n ==> Relayed(stars, at, to, i).Some?
    requires forall i: nat, j: nat :: i < j < n ==> Relayed(stars, at, to, i) != Relayed(stars, at, to, j)
    ensures |Met(stars, at, to, n)| == n
  {
    if n > 0 {
      hide Relayed;
      MetCount(stars, at, to, n - 1);
      var last := Relayed(stars, at, to, n - 1).value;
      if last in Met(stars, at, to, n - 1) {
        var i := MetAt(stars, at, to, n - 1, last);
        assert false;
      }
    }
  }

  lemma SubsetCount<T>(a: set<T>, b: set<T>)
    requires a <= b
    ensures |a| <= |b|
    decreases a
  {
    if a != {} {
      var x :| x in a;
      SubsetCount(a - {x}, b - {x});
    }
  }

  /** A route that gets there at all meets no star twice, so it takes fewer relays than there are stars. */
  lemma RoutesAreShort(stars: Constellation, at: StarKey, to: StarKey, n: nat)
    requires to in stars && Relayed(stars, at, to, n) == Some(to)
    requires forall m: nat :: m < n ==> Relayed(stars, at, to, m) != Some(to)
    ensures n < |stars|
  {
    hide Met;
    forall i: nat | i <= n
      ensures Relayed(stars, at, to, i).Some? && Relayed(stars, at, to, i).value in stars
    {
      RelayedStopsEarly(stars, at, to, i, n);
      if i < n {
        RelayedStopsEarly(stars, at, to, i + 1, n);
      }
    }
    hide Relayed;
    forall i: nat, j: nat | i < j < n + 1
      ensures Relayed(stars, at, to, i) != Relayed(stars, at, to, j)
    {
      if Relayed(stars, at, to, i) == Relayed(stars, at, to, j) {
        assert Relayed(stars, at, to, i + (n - j)) != Some(to);
        RelayedAgain(stars, at, to, i, j, n - j);
      }
    }
    MetCount(stars, at, to, n + 1);
    forall star | star in Met(stars, at, to, n + 1)
      ensures star in stars
    {
      var i := MetAt(stars, at, to, n + 1, star);
    }
    SubsetCount(Met(stars, at, to, n + 1), stars.Keys);
  }

  /** Among at most 255 stars the hop limit never stops a transport whose relaying would get there. */
  lemma HopLimitStopsOnlyLoops(stars: Constellation, at: StarKey, transport: Transport, n: nat)
    requires KeysAgree(stars) && |stars| <= MAX_HOPS
    requires transport.to in stars && transport.hops == 0
    requires Relayed(stars, at, transport.to, n) == Some(transport.to)
    ensures FateFrom(stars, at, transport).Delivered?
  {
    var m := FirstArrival(stars, at, transport.to, n);
    RoutesAreShort(stars, at, transport.to, m);
    DeliveredIffRelayed(stars, at, transport);
  }

  lemma FirstArrival(stars: Constellation, at: StarKey, to: StarKey, n: nat) returns (m: nat)
    requires Relayed(stars, at, to, n) == Some(to)
    ensures m <= n && Relayed(stars, at, to, m) == Some(to)
    ensures forall k: nat :: k < m ==> Relayed(stars, at, to, k) != Some(to)
  {
    m := n;
    if i: nat :| i < n && Relayed(stars, at, to, i) == Some(to) {
      m := FirstArrival(stars, at, to, i);
    }
  }
}
