/**
The fabric: all stars at once.

The state holds every wave that has been given to a star, wherever it is.  A
step lets one star serve one call, the hyperway deliver one hop, or the
locator answer one lookup.  Any parcel may be next, so a run is any
interleaving of the stars; channels deliver reliably, in any order.
 */
module Fabric {
  import opened Outcomes
  import opened Points
  import opened Stars

  /** Where a wave under way is: in a star's mailbox, in a task of the star, or on the hyperway to it. */
  datatype Job =
    | Gravity(wave: Wave)
    | Shard(wave: Wave)
    | Locating(wave: Wave)
    | Outgoing(transport: Transport)
    | OnHyperway(transport: Transport)
    | Arrived(transport: Transport)
  {
    function TheWave(): Wave {
      match this
      case Gravity(wave) => wave
      case Shard(wave) => wave
      case Locating(wave) => wave
      case Outgoing(transport) => transport.wave
      case OnHyperway(transport) => transport.wave
      case Arrived(transport) => transport.wave
    }

    predicate HasTransport() {
      Outgoing? || OnHyperway? || Arrived?
    }
  }

  datatype Parcel = Parcel(star: StarKey, job: Job)

  datatype Injection = Injection(star: StarKey, wave: Wave, carrier: Option<Transport>)

  datatype Loss = Loss(star: StarKey, wave: Wave, err: StarErr)

  /** `answers` are those the locators have given: a point and the star it was located on. */
  datatype Net = Net(
    answers: set<(Point, StarKey)>,
    submitted: multiset<Wave>,
    active: seq<Parcel>,
    handled: seq<Wave>,
    injected: seq<Injection>,
    lost: seq<Loss>)

  const START := Net({}, multiset{}, [], [], [], [])

  /** What serving one parcel yields. */
  datatype Served =
    | Onward(parcel: Parcel)
    | ToGlobal(wave: Wave)
    | IntoLayers(injection: Injection)
    | WithError(loss: Loss)

  function ServeTransport(star: StarKey, disposition: Disposition): Served {
    match disposition
    case Inject(t) => IntoLayers(Injection(star, t.wave, Some(t)))
    case Send(next, t) => Onward(Parcel(next, OnHyperway(t)))
    case Drop(t, err) => WithError(Loss(star, t.wave, err))
  }

  /** One star serves one of its calls.  Lookups are answered by Answer instead. */
  function Serve(stars: Constellation, parcel: Parcel): Served
    requires parcel.star in stars && !parcel.job.Locating?
  {
    match parcel.job
    case Gravity(wave) => if GoesToGlobal(wave) then ToGlobal(wave) else Onward(Parcel(parcel.star, Shard(wave)))
    case Shard(wave) => Onward(Parcel(parcel.star, Locating(wave)))
    case Outgoing(t) => ServeTransport(parcel.star, ToHyperwayResult(stars[parcel.star], t))
    case OnHyperway(t) => Onward(Parcel(parcel.star, Arrived(t)))
    case Arrived(t) => ServeTransport(parcel.star, FromHyperwayResult(stars[parcel.star], t))
  }

  /** The spawned shard task goes on once the locator has answered. */
  function Answer(stars: Constellation, parcel: Parcel, located: Result<StarKey, StarErr>): Served
    requires parcel.star in stars && parcel.job.Locating?
  {
    var wave := parcel.job.wave;
    match ShardTo(stars[parcel.star], wave, located)
    case InjectHere => IntoLayers(Injection(parcel.star, wave, None))
    case Carry(t) => Onward(Parcel(parcel.star, Outgoing(t)))
    case CannotShard(err) => WithError(Loss(parcel.star, wave, err))
  }

  // ---------------------------------------------------------------- steps and runs

  datatype Step =
    | Submit(star: StarKey, wave: Wave)
    | ServeNext(i: nat)
    | AnswerNext(i: nat, located: Result<StarKey, StarErr>)

  function Without<T>(xs: seq<T>, i: nat): seq<T>
    requires i < |xs|
  {
    xs[..i] + xs[i + 1..]
  }

  function Record(net: Net, i: nat, served: Served): Net
    requires i < |net.active|
  {
    var rest := Without(net.active, i);
    match served
    case Onward(parcel) => net.(active := rest + [parcel])
    case ToGlobal(wave) => net.(active := rest, handled := net.handled + [wave])
    case IntoLayers(injection) => net.(active := rest, injected := net.injected + [injection])
    case WithError(loss) => net.(active := rest, lost := net.lost + [loss])
  }

  /** The locator may give any answer, or fail, at any time. */
  predicate Enabled(stars: Constellation, net: Net, step: Step) {
    match step
    case Submit(star, _) => star in stars
    case ServeNext(i) => i < |net.active| && net.active[i].star in stars && !net.active[i].job.Locating?
    case AnswerNext(i, located) =>
      && i < |net.active| && net.active[i].star in stars && net.active[i].job.Locating?
      && (located.Err? ==> located.error == NotLocated)
  }

  function Apply(stars: Constellation, net: Net, step: Step): Net
    requires Enabled(stars, net, step)
  {
    match step
    case Submit(star, wave) =>
      net.(submitted := net.submitted + multiset{wave}, active := net.active + [Parcel(star, Gravity(wave))])
    case ServeNext(i) => Record(net, i, Serve(stars, net.active[i]))
    case AnswerNext(i, located) =>
      var next := Record(net, i, Answer(stars, net.active[i], located));
      if located.Ok? then next.(answers := net.answers + {(net.active[i].job.wave.to, located.value)}) else next
  }

  predicate AllEnabled(stars: Constellation, net: Net, steps: seq<Step>)
    decreases steps
  {
    |steps| == 0 || (Enabled(stars, net, steps[0]) && AllEnabled(stars, Apply(stars, net, steps[0]), steps[1..]))
  }

  function Run(stars: Constellation, net: Net, steps: seq<Step>): Net
    requires AllEnabled(stars, net, steps)
    decreases steps
  {
    if |steps| == 0 then net else Run(stars, Apply(stars, net, steps[0]), steps[1..])
  }

  // ---------------------------------------------------------------- conservation

  function ParcelWave(parcel: Parcel): Wave { parcel.job.TheWave() }
  function InjectionWave(injection: Injection): Wave { injection.wave }
  function LossWave(loss: Loss): Wave { loss.wave }
  function SameWave(wave: Wave): Wave { wave }

  /** The values of all elements, with their multiplicities. */
  function Collect<T, V>(xs: seq<T>, value: T -> V): multiset<V> {
    if |xs| == 0 then multiset{} else multiset{value(xs[0])} + Collect(xs[1..], value)
  }

  lemma {:induction false} CollectConcat<T, V>(a: seq<T>, b: seq<T>, value: T -> V)
    ensures Collect(a + b, value) == Collect(a, value) + Collect(b, value)
  {
    if |a| == 0 {
      assert a + b == b;
    } else {
      assert (a + b)[0] == a[0] && (a + b)[1..] == a[1..] + b;
      CollectConcat(a[1..], b, value);
    }
  }

  lemma CollectAppend<T, V>(xs: seq<T>, x: T, value: T -> V)
    ensures Collect(xs + [x], value) == Collect(xs, value) + multiset{value(x)}
  {
    CollectConcat(xs, [x], value);
    assert [x][1..] == [];
  }

  lemma CollectWithout<T, V>(xs: seq<T>, i: nat, value: T -> V)
    requires i < |xs|
    ensures Collect(xs, value) == Collect(Without(xs, i), value) + multiset{value(xs[i])}
  {
    hide Collect;
    assert xs == (xs[..i] + [xs[i]]) + xs[i + 1..];
    CollectConcat(xs[..i] + [xs[i]], xs[i + 1..], value);
    CollectAppend(xs[..i], xs[i], value);
    CollectConcat(xs[..i], xs[i + 1..], value);
  }

  /** Every wave in the fabric, with the number of places it is in. */
  function Everywhere(net: Net): multiset<Wave> {
    Collect(net.active, ParcelWave) + Collect(net.handled, SameWave)
    + Collect(net.injected, InjectionWave) + Collect(net.lost, LossWave)
  }

  function ServedWave(served: Served): Wave {
    match served
    case Onward(parcel) => ParcelWave(parcel)
    case ToGlobal(wave) => wave
    case IntoLayers(injection) => injection.wave
    case WithError(loss) => loss.wave
  }

  lemma RecordConserves(net: Net, i: nat, served: Served)
    requires i < |net.active| && ServedWave(served) == ParcelWave(net.active[i])
    ensures Everywhere(Record(net, i, served)) == Everywhere(net)
  {
    hide Collect;
    var rest := Without(net.active, i);
    CollectWithout(net.active, i, ParcelWave);
    match served {
      case Onward(parcel) => CollectAppend(rest, parcel, ParcelWave);
      case ToGlobal(wave) => CollectAppend(net.handled, wave, SameWave);
      case IntoLayers(injection) => CollectAppend(net.injected, injection, InjectionWave);
      case WithError(loss) => CollectAppend(net.lost, loss, LossWave);
    }
  }

  lemma StepConserves(stars: Constellation, net: Net, step: Step)
    requires Enabled(stars, net, step)
    requires Everywhere(net) == net.submitted
    ensures Everywhere(Apply(stars, net, step)) == Apply(stars, net, step).submitted
  {
    hide Collect;
    match step {
      case Submit(star, wave) => CollectAppend(net.active, Parcel(star, Gravity(wave)), ParcelWave);
      case ServeNext(i) => RecordConserves(net, i, Serve(stars, net.active[i]));
      case AnswerNext(i, located) => RecordConserves(net, i, Answer(stars, net.active[i], located));
    }
  }

  /**
  What a step leaves behind: a submitted wave is given to its star, an answer
  is kept, and every other step moves one parcel to the end of one list.
   */
  lemma StepRecords(stars: Constellation, net: Net, step: Step)
    requires Enabled(stars, net, step)
    ensures var next := Apply(stars, net, step);
            && next.answers == net.answers + (if step.AnswerNext? && step.located.Ok?
                                              then {(ParcelWave(net.active[step.i]).to, step.located.value)} else {})
            && next.submitted == net.submitted + (if step.Submit? then multiset{step.wave} else multiset{})
            && net.handled <= next.handled && net.injected <= next.injected && net.lost <= next.lost
            && (step.Submit? ==>
                  next == net.(submitted := next.submitted,
                               active := net.active + [Parcel(step.star, Gravity(step.wave))]))
            && (!step.Submit? ==>
                  && |next.active| + |next.handled| + |next.injected| + |next.lost| ==
                     |net.active| + |net.handled| + |net.injected| + |net.lost|
                  && net.active[..step.i] <= next.active
                  && net.active[step.i + 1..] <= next.active[step.i..])
  {
    if !step.Submit? {
      var rest := Without(net.active, step.i);
      assert rest <= Apply(stars, net, step).active;
      assert rest[..step.i] == net.active[..step.i] && rest[step.i..] == net.active[step.i + 1..];
    }
  }

  // ---------------------------------------------------------------- what every step keeps

  predicate ParcelOk(net: Net, parcel: Parcel) {
    parcel.job.HasTransport() ==>
      var t := parcel.job.transport;
      && t.hops <= MAX_HOPS
      && (t.wave.to, t.to) in net.answers
  }

  predicate InjectionOk(net: Net, injection: Injection) {
    && (injection.wave.to, injection.star) in net.answers
    && (injection.carrier.Some? ==>
          && injection.carrier.value.to == injection.star
          && injection.carrier.value.wave == injection.wave
          && 0 < injection.carrier.value.hops <= MAX_HOPS)
  }

  ghost predicate Inv(net: Net) {
    && Everywhere(net) == net.submitted
    && (forall i :: 0 <= i < |net.active| ==> ParcelOk(net, net.active[i]))
    && (forall i :: 0 <= i < |net.injected| ==> InjectionOk(net, net.injected[i]))
    && (forall i :: 0 <= i < |net.handled| ==> GoesToGlobal(net.handled[i]))
  }

  predicate ServedOk(net: Net, served: Served) {
    match served
    case Onward(parcel) => ParcelOk(net, parcel)
    case ToGlobal(wave) => GoesToGlobal(wave)
    case IntoLayers(injection) => InjectionOk(net, injection)
    case WithError(_) => true
  }

  lemma RecordKeepsInv(net: Net, i: nat, served: Served)
    requires Inv(net) && i < |net.active|
    requires ServedWave(served) == ParcelWave(net.active[i]) && ServedOk(net, served)
    ensures Inv(Record(net, i, served))
  {
    hide Collect;
    RecordConserves(net, i, served);
    hide Everywhere;
    var next := Record(net, i, served);
    assert next.answers == net.answers && next.submitted == net.submitted;
    forall j | 0 <= j < |next.active|
      ensures ParcelOk(next, next.active[j])
    {
      var rest := Without(net.active, i);
      assert forall k :: 0 <= k < |rest| ==> ParcelOk(net, rest[k]);
      assert next.active[j] in rest || next.active[j] == served.parcel;
    }
  }

  lemma ServeIsOk(stars: Constellation, net: Net, parcel: Parcel)
    requires KeysAgree(stars) && ParcelOk(net, parcel) && parcel.star in stars && !parcel.job.Locating?
    ensures ServedOk(net, Serve(stars, parcel)) && ServedWave(Serve(stars, parcel)) == ParcelWave(parcel)
  {
  }

  lemma AnswerIsOk(stars: Constellation, net: Net, parcel: Parcel, located: Result<StarKey, StarErr>)
    requires KeysAgree(stars) && parcel.star in stars && parcel.job.Locating?
    requires located.Ok? ==> (parcel.job.wave.to, located.value) in net.answers
    ensures ServedOk(net, Answer(stars, parcel, located))
    ensures ServedWave(Answer(stars, parcel, located)) == ParcelWave(parcel)
  {
  }

  /** One more answer disturbs nothing. */
  lemma AnsweringKeepsInv(net: Net, point: Point, star: StarKey)
    requires Inv(net)
    ensures Inv(net.(answers := net.answers + {(point, star)}))
  {
    hide Collect;
    assert Everywhere(net.(answers := net.answers + {(point, star)})) == Everywhere(net);
  }

  lemma StepKeepsInv(stars: Constellation, net: Net, step: Step)
    requires KeysAgree(stars) && Inv(net) && Enabled(stars, net, step)
    ensures Inv(Apply(stars, net, step))
  {
    hide Collect, Everywhere, Serve, Answer, ServedOk, ServedWave;
    match step {
      case Submit(star, wave) => StepConserves(stars, net, step);
      case ServeNext(i) =>
        ServeIsOk(stars, net, net.active[i]);
        RecordKeepsInv(net, i, Serve(stars, net.active[i]));
      case AnswerNext(i, located) =>
        var point := net.active[i].job.wave.to;
        var known := net;
        if located.Ok? {
          known := net.(answers := net.answers + {(point, located.value)});
          AnsweringKeepsInv(net, point, located.value);
        }
        AnswerIsOk(stars, known, net.active[i], located);
        RecordKeepsInv(known, i, Answer(stars, net.active[i], located));
        assert Apply(stars, net, step) == Record(known, i, Answer(stars, net.active[i], located));
    }
  }

  lemma StartIsSafe()
    ensures Inv(START)
  {
    assert Everywhere(START) == START.submitted;
  }

  lemma {:induction false} RunKeepsInv(stars: Constellation, net: Net, steps: seq<Step>)
    requires KeysAgree(stars) && Inv(net) && AllEnabled(stars, net, steps)
    ensures Inv(Run(stars, net, steps))
    decreases steps
  {
    if |steps| > 0 {
      StepKeepsInv(stars, net, steps[0]);
      RunKeepsInv(stars, Apply(stars, net, steps[0]), steps[1..]);
    }
  }

  /**
  Whole runs from the empty fabric, under any interleaving: each submitted wave
  is in exactly one place, every wave injected anywhere is injected at a star
  its recipient was located on, and a transport only at the star it is for.
   */
  lemma EveryRunIsSafe(stars: Constellation, steps: seq<Step>)
    requires KeysAgree(stars) && AllEnabled(stars, START, steps)
    ensures var net := Run(stars, START, steps);
            && Everywhere(net) == net.submitted
            && (forall i :: 0 <= i < |net.injected| ==> InjectionOk(net, net.injected[i]))
            && (forall i :: 0 <= i < |net.handled| ==> GoesToGlobal(net.handled[i]))
            // what makes an injection right, in full
            && (forall i :: 0 <= i < |net.injected| ==>
                  var Injection(star, wave, carrier) := net.injected[i];
                  && (wave.to, star) in net.answers
                  && (carrier.Some? ==>
                        carrier.value.to == star && carrier.value.wave == wave && 0 < carrier.value.hops <= 255))
  {
    StartIsSafe();
    RunKeepsInv(stars, START, steps);
  }

  /** The hop counter never wraps: no reachable transport is near the end of its 16 bits. */
  lemma HopsNeverWrap(stars: Constellation, steps: seq<Step>, i: nat)
    requires KeysAgree(stars) && AllEnabled(stars, START, steps)
    requires i < |Run(stars, START, steps).active| && Run(stars, START, steps).active[i].job.HasTransport()
    ensures var t := Run(stars, START, steps).active[i].job.transport; IncHops(t).hops == t.hops + 1
  {
    StartIsSafe();
    RunKeepsInv(stars, START, steps);
    assert ParcelOk(Run(stars, START, steps), Run(stars, START, steps).active[i]);
  }

  // ---------------------------------------------------------------- waves for the global executor

  /** Waves for the executor are handled straight from gravity: they are nowhere else. */
  ghost predicate ExecutorApart(net: Net) {
    && (forall i :: 0 <= i < |net.handled| ==>
          net.handled[i].directed && net.handled[i].to == PointDef(Global, [Space("executor")]))
    && (forall i :: 0 <= i < |net.active| && !net.active[i].job.Gravity? ==>
          !(ParcelWave(net.active[i]).directed
            && ParcelWave(net.active[i]).to == PointDef(Global, [Space("executor")])))
    && (forall i :: 0 <= i < |net.injected| ==>
          !(net.injected[i].wave.directed && net.injected[i].wave.to == PointDef(Global, [Space("executor")])))
    && (forall i :: 0 <= i < |net.lost| ==>
          !(net.lost[i].wave.directed && net.lost[i].wave.to == PointDef(Global, [Space("executor")])))
  }

  predicate ServedApart(served: Served) {
    match served
    case Onward(parcel) =>
      !parcel.job.Gravity? ==>
        !(ParcelWave(parcel).directed && ParcelWave(parcel).to == PointDef(Global, [Space("executor")]))
    case ToGlobal(wave) => wave.directed && wave.to == PointDef(Global, [Space("executor")])
    case IntoLayers(injection) =>
      !(injection.wave.directed && injection.wave.to == PointDef(Global, [Space("executor")]))
    case WithError(loss) => !(loss.wave.directed && loss.wave.to == PointDef(Global, [Space("executor")]))
  }

  lemma RecordKeepsApart(net: Net, i: nat, served: Served)
    requires ExecutorApart(net) && i < |net.active| && ServedApart(served)
    ensures ExecutorApart(Record(net, i, served))
  {
    var rest, next := Without(net.active, i), Record(net, i, served);
    assert forall k :: 0 <= k < |rest| ==> rest[k] == net.active[if k < i then k else k + 1];
  }

  lemma ServeApart(stars: Constellation, net: Net, i: nat)
    requires ExecutorApart(net) && i < |net.active| && net.active[i].star in stars && !net.active[i].job.Locating?
    ensures ServedApart(Serve(stars, net.active[i]))
  {
  }

  lemma StepKeepsApart(stars: Constellation, net: Net, step: Step)
    requires ExecutorApart(net) && Enabled(stars, net, step)
    ensures ExecutorApart(Apply(stars, net, step))
  {
    match step {
      case Submit(_, _) =>
      case ServeNext(i) =>
        ServeApart(stars, net, i);
        RecordKeepsApart(net, i, Serve(stars, net.active[i]));
      case AnswerNext(i, located) =>
        RecordKeepsApart(net, i, Answer(stars, net.active[i], located));
    }
  }

  lemma {:induction false} RunKeepsApart(stars: Constellation, net: Net, steps: seq<Step>)
    requires ExecutorApart(net) && AllEnabled(stars, net, steps)
    ensures ExecutorApart(Run(stars, net, steps))
    decreases steps
  {
    if |steps| > 0 {
      StepKeepsApart(stars, net, steps[0]);
      RunKeepsApart(stars, Apply(stars, net, steps[0]), steps[1..]);
    }
  }

  lemma {:induction false} CollectNone<T, V>(xs: seq<T>, value: T -> V, v: V)
    requires forall i :: 0 <= i < |xs| ==> value(xs[i]) != v
    ensures Collect(xs, value)[v] == 0
  {
    if |xs| > 0 {
      CollectNone(xs[1..], value, v);
    }
  }

  /**
  Over whole runs: only directed waves for the executor are handled globally.
  They are never on their way anywhere, injected or lost; at rest each of them
  has been handled as often as it was submitted.
   */
  lemma ExecutorWavesAreHandled(stars: Constellation, steps: seq<Step>)
    requires KeysAgree(stars) && AllEnabled(stars, START, steps)
    ensures var net := Run(stars, START, steps);
            && (forall i :: 0 <= i < |net.handled| ==>
                  net.handled[i].directed && net.handled[i].to == PointDef(Global, [Space("executor")]))
            && (forall wave: Wave :: wave.directed && wave.to == PointDef(Global, [Space("executor")]) ==>
                  && (forall i :: 0 <= i < |net.active| && ParcelWave(net.active[i]) == wave ==>
                        net.active[i].job.Gravity?)
                  && (forall i :: 0 <= i < |net.injected| ==> net.injected[i].wave != wave)
                  && (forall i :: 0 <= i < |net.lost| ==> net.lost[i].wave != wave)
                  && (net.active == [] ==> Collect(net.handled, SameWave)[wave] == net.submitted[wave]))
            && (forall wave: Wave :: !(wave.directed && wave.to == PointDef(Global, [Space("executor")])) ==>
                  Collect(net.handled, SameWave)[wave] == 0)
  {
    RunKeepsApart(stars, START, steps);
    EveryRunIsSafe(stars, steps);
    hide Run, AllEnabled, KeysAgree, InjectionOk;
    var net := Run(stars, START, steps);
    forall wave: Wave | wave.directed && wave.to == PointDef(Global, [Space("executor")])
      ensures net.active == [] ==> Collect(net.handled, SameWave)[wave] == net.submitted[wave]
    {
      CollectNone(net.injected, InjectionWave, wave);
      CollectNone(net.lost, LossWave, wave);
      assert net.active == [] ==> Collect(net.active, ParcelWave)[wave] == 0;
    }
    forall wave: Wave | !(wave.directed && wave.to == PointDef(Global, [Space("executor")]))
      ensures Collect(net.handled, SameWave)[wave] == 0
    {
      CollectNone(net.handled, SameWave, wave);
    }
  }

  // ---------------------------------------------------------------- termination

  /** An upper bound on the steps a parcel can still take. */
  function Work(parcel: Parcel): nat {
    match parcel.job
    case Arrived(t) => if t.hops <= MAX_HOPS then 2 * (MAX_HOPS - t.hops) + 1 else 1
    case OnHyperway(t) => if t.hops <= MAX_HOPS then 2 * (MAX_HOPS - t.hops) + 2 else 2
    case Outgoing(t) => if t.hops <= MAX_HOPS then 2 * (MAX_HOPS - t.hops) + 3 else 3
    case Locating(_) => 2 * MAX_HOPS + 4
    case Shard(_) => 2 * MAX_HOPS + 5
    case Gravity(_) => MAX_WORK
  }

  const MAX_WORK := 2 * MAX_HOPS + 6

  function TotalWork(active: seq<Parcel>): nat {
    if |active| == 0 then 0 else Work(active[0]) + TotalWork(active[1..])
  }

  lemma {:induction false} TotalWorkConcat(a: seq<Parcel>, b: seq<Parcel>)
    ensures TotalWork(a + b) == TotalWork(a) + TotalWork(b)
  {
    if |a| == 0 {
      assert a + b == b;
    } else {
      assert (a + b)[0] == a[0] && (a + b)[1..] == a[1..] + b;
      TotalWorkConcat(a[1..], b);
    }
  }

  lemma TotalWorkOne(parcel: Parcel)
    ensures TotalWork([parcel]) == Work(parcel)
  {
    assert [parcel][1..] == [];
  }

  lemma TotalWorkWithout(active: seq<Parcel>, i: nat)
    requires i < |active|
    ensures TotalWork(active) == TotalWork(Without(active, i)) + Work(active[i])
  {
    hide TotalWork, Work;
    assert active == active[..i] + ([active[i]] + active[i + 1..]);
    TotalWorkConcat(active[..i], [active[i]] + active[i + 1..]);
    TotalWorkConcat([active[i]], active[i + 1..]);
    TotalWorkOne(active[i]);
    TotalWorkConcat(active[..i], active[i + 1..]);
  }

  lemma RecordLessWork(net: Net, i: nat, served: Served)
    requires i < |net.active|
    requires served.Onward? ==> Work(served.parcel) < Work(net.active[i])
    ensures TotalWork(Record(net, i, served).active) < TotalWork(net.active)
  {
    TotalWorkWithout(net.active, i);
    if served.Onward? {
      TotalWorkConcat(Without(net.active, i), [served.parcel]);
      TotalWorkOne(served.parcel);
    }
  }

  lemma StepLessWork(stars: Constellation, net: Net, step: Step)
    requires Inv(net) && Enabled(stars, net, step)
    ensures TotalWork(Apply(stars, net, step).active) <= TotalWork(net.active) + if step.Submit? then MAX_WORK else -1
  {
    match step {
      case Submit(star, wave) =>
        TotalWorkConcat(net.active, [Parcel(star, Gravity(wave))]);
        TotalWorkOne(Parcel(star, Gravity(wave)));
      case ServeNext(i) =>
        assert ParcelOk(net, net.active[i]);
        RecordLessWork(net, i, Serve(stars, net.active[i]));
      case AnswerNext(i, located) => RecordLessWork(net, i, Answer(stars, net.active[i], located));
    }
  }

  function Submissions(steps: seq<Step>): nat {
    if |steps| == 0 then 0 else (if steps[0].Submit? then 1 else 0) + Submissions(steps[1..])
  }

  lemma Distribute(k: int, a: int, b: int)
    ensures k * (a + b) == k * a + k * b
  {
  }

  lemma BudgetSplits(steps: seq<Step>)
    requires |steps| > 0
    ensures (MAX_WORK + 1) * Submissions(steps) ==
            (if steps[0].Submit? then MAX_WORK + 1 else 0) + (MAX_WORK + 1) * Submissions(steps[1..])
  {
    var first, rest := if steps[0].Submit? then 1 else 0, Submissions(steps[1..]);
    assert Submissions(steps) == first + rest;
    hide Submissions;
    Distribute(MAX_WORK + 1, first, rest);
  }

  /** Whatever the connections of the stars, a run takes boundedly many steps for each wave submitted. */
  lemma {:induction false} RunsAreBounded(stars: Constellation, net: Net, steps: seq<Step>)
    requires KeysAgree(stars) && Inv(net) && AllEnabled(stars, net, steps)
    ensures |steps| <= TotalWork(net.active) + (MAX_WORK + 1) * Submissions(steps)
    decreases steps
  {
    if |steps| > 0 {
      hide Inv, Apply, Enabled, TotalWork, KeysAgree;
      StepLessWork(stars, net, steps[0]);
      StepKeepsInv(stars, net, steps[0]);
      RunsAreBounded(stars, Apply(stars, net, steps[0]), steps[1..]);
      BudgetSplits(steps);
    }
  }

  // ---------------------------------------------------------------- interleavings do not change the fate of a parcel

  /** What becomes of a parcel that carries a transport, if it is left to itself. */
  function FateOf(stars: Constellation, parcel: Parcel): Fate
    requires parcel.star in stars && parcel.job.HasTransport() && parcel.job.transport.hops <= MAX_HOPS
  {
    match parcel.job
    case Outgoing(t) =>
      (match ToHyperwayResult(stars[parcel.star], t)
       case Send(next, sent) => FateFrom(stars, next, sent)
       case Drop(dropped, err) => Lost(parcel.star, dropped, err)
       case Inject(_) => assert false; Stranded(parcel.star, t))
    case OnHyperway(t) => FateFrom(stars, parcel.star, t)
    case Arrived(t) => FateFrom(stars, parcel.star, t)
  }

  /** Serving a parcel leaves its fate as it was, or carries it out. */
  lemma ServingFollowsFate(stars: Constellation, parcel: Parcel)
    requires parcel.star in stars && parcel.job.HasTransport() && parcel.job.transport.hops <= MAX_HOPS
    ensures match Serve(stars, parcel)
            case Onward(next) =>
              && next.job.HasTransport() && next.job.transport.hops <= MAX_HOPS
              && (if next.star in stars then FateOf(stars, next) == FateOf(stars, parcel)
                  else FateOf(stars, parcel).Stranded?)
            case IntoLayers(injection) =>
              injection.carrier.Some? && FateOf(stars, parcel) == Delivered(injection.star, injection.carrier.value)
            case WithError(loss) =>
              var fate := FateOf(stars, parcel);
              fate.Lost? && loss == Loss(fate.star, fate.transport.wave, fate.err)
            case ToGlobal(_) => false
  {
    match Serve(stars, parcel) {
      case Onward(next) =>
        if next.star !in stars {
          assert FateFrom(stars, next.star, next.job.transport).Stranded?;
        }
      case _ =>
    }
  }

  /** How a wave ends. */
  datatype Ending =
    | EndsHandled(wave: Wave)
    | EndsInjected(star: StarKey, wave: Wave, carrier: Option<Transport>)
    | EndsLost(star: StarKey, wave: Wave, err: StarErr)
    | EndsStranded(star: StarKey, wave: Wave)

  function FateEnding(fate: Fate): Ending {
    match fate
    case Delivered(star, t) => EndsInjected(star, t.wave, Some(t))
    case Lost(star, t, err) => EndsLost(star, t.wave, err)
    case Stranded(star, t) => EndsStranded(star, t.wave)
  }

  type Locator = Wave -> Result<StarKey, StarErr>

  /** How the wave of a parcel ends, when the locator's answers are given. */
  function EndingOf(stars: Constellation, locate: Locator, parcel: Parcel): Ending {
    var wave := parcel.job.TheWave();
    if parcel.star !in stars || (parcel.job.HasTransport() && parcel.job.transport.hops > MAX_HOPS) then
      EndsStranded(parcel.star, wave)
    else if parcel.job.HasTransport() then FateEnding(FateOf(stars, parcel))
    else if parcel.job.Gravity? && GoesToGlobal(wave) then EndsHandled(wave)
    else
      match ShardTo(stars[parcel.star], wave, locate(wave))
      case InjectHere => EndsInjected(parcel.star, wave, None)
      case Carry(t) => FateEnding(FateOf(stars, Parcel(parcel.star, Outgoing(t))))
      case CannotShard(err) => EndsLost(parcel.star, wave, err)
  }

  /**
  How a submitted wave ends, spelled out where no relaying is needed: handled,
  lost with the locator's error, injected on the spot, or carried to a neighbour.
   */
  lemma EndingSpelledOut(stars: Constellation, locate: Locator, star: StarKey, wave: Wave)
    requires KeysAgree(stars) && star in stars
    ensures var ending, located := EndingOf(stars, locate, Parcel(star, Gravity(wave))), locate(wave);
            if wave.directed && wave.to == PointDef(Global, [Space("executor")]) then ending == EndsHandled(wave)
            else if located.Err? then ending == EndsLost(star, wave, located.error)
            else if located.value == star then ending == EndsInjected(star, wave, None)
            else if located.value in stars[star].adjacents then
              ending == if located.value in stars
                        then EndsInjected(located.value, wave, Some(Transport(located.value, 1, wave)))
                        else EndsStranded(located.value, wave)
            else
              || (ending.EndsInjected? && ending.star == located.value && ending.wave == wave && ending.carrier.Some?
                  && 0 < ending.carrier.value.hops <= 255)
              || (ending.EndsLost? && ending.wave == wave)
              || (ending.EndsStranded? && ending.wave == wave && ending.star !in stars)
  {
    var located := locate(wave);
    if !GoesToGlobal(wave) && located.Ok? && located.value != star {
      var t := Transport(located.value, 0, wave);
      match ToHyperwayResult(stars[star], t) {
        case Send(next, sent) => assert FateFrom(stars, next, sent).transport.wave == wave;
        case _ =>
      }
    }
  }

  function EndingBy(stars: Constellation, locate: Locator): Parcel -> Ending {
    parcel => EndingOf(stars, locate, parcel)
  }

  function InjectionEnding(injection: Injection): Ending {
    EndsInjected(injection.star, injection.wave, injection.carrier)
  }

  function LossEnding(loss: Loss): Ending {
    EndsLost(loss.star, loss.wave, loss.err)
  }

  function HandledEnding(wave: Wave): Ending {
    EndsHandled(wave)
  }

  /** The endings already reached, and those that lie ahead. */
  function Endings(stars: Constellation, locate: Locator, net: Net): multiset<Ending> {
    Collect(net.active, EndingBy(stars, locate)) + Collect(net.handled, HandledEnding)
    + Collect(net.injected, InjectionEnding) + Collect(net.lost, LossEnding)
  }

  function ServedEnding(stars: Constellation, locate: Locator, served: Served): Ending {
    match served
    case Onward(parcel) => EndingOf(stars, locate, parcel)
    case ToGlobal(wave) => EndsHandled(wave)
    case IntoLayers(injection) => InjectionEnding(injection)
    case WithError(loss) => LossEnding(loss)
  }

  lemma RecordKeepsEndings(stars: Constellation, locate: Locator, net: Net, i: nat, served: Served)
    requires i < |net.active| && ServedEnding(stars, locate, served) == EndingOf(stars, locate, net.active[i])
    ensures Endings(stars, locate, Record(net, i, served)) == Endings(stars, locate, net)
  {
    hide Collect;
    var rest := Without(net.active, i);
    CollectWithout(net.active, i, EndingBy(stars, locate));
    match served {
      case Onward(parcel) => CollectAppend(rest, parcel, EndingBy(stars, locate));
      case ToGlobal(wave) => CollectAppend(net.handled, wave, HandledEnding);
      case IntoLayers(injection) => CollectAppend(net.injected, injection, InjectionEnding);
      case WithError(loss) => CollectAppend(net.lost, loss, LossEnding);
    }
  }

  lemma ServeKeepsEnding(stars: Constellation, locate: Locator, parcel: Parcel)
    requires parcel.star in stars && !parcel.job.Locating?
    requires parcel.job.HasTransport() ==> parcel.job.transport.hops <= MAX_HOPS
    ensures ServedEnding(stars, locate, Serve(stars, parcel)) == EndingOf(stars, locate, parcel)
  {
    if parcel.job.HasTransport() {
      hide FateOf, FateFrom;
      ServingFollowsFate(stars, parcel);
      FateWave(stars, parcel);
      StrandedAt(stars, parcel);
    }
  }

  lemma FateWave(stars: Constellation, parcel: Parcel)
    requires parcel.star in stars && parcel.job.HasTransport() && parcel.job.transport.hops <= MAX_HOPS
    ensures FateOf(stars, parcel).transport.wave == parcel.job.transport.wave
  {
  }

  lemma StrandedAt(stars: Constellation, parcel: Parcel)
    requires parcel.star in stars && parcel.job.HasTransport() && parcel.job.transport.hops <= MAX_HOPS
    ensures Serve(stars, parcel).Onward? && Serve(stars, parcel).parcel.star !in stars ==>
              FateOf(stars, parcel).star == Serve(stars, parcel).parcel.star
  {
    match Serve(stars, parcel) {
      case Onward(next) =>
        if next.star !in stars {
          assert FateFrom(stars, next.star, next.job.transport) == Stranded(next.star, next.job.transport);
        }
      case _ =>
    }
  }

  /** Each answer of the run is the one the locator gives for the wave. */
  predicate AnswersBy(stars: Constellation, locate: Locator, net: Net, steps: seq<Step>)
    requires AllEnabled(stars, net, steps)
    decreases steps
  {
    |steps| == 0
    || ((steps[0].AnswerNext? ==> steps[0].located == locate(net.active[steps[0].i].job.wave))
        && AnswersBy(stars, locate, Apply(stars, net, steps[0]), steps[1..]))
  }

  /** The waves a run submits, each in the mailbox of the star it is submitted to. */
  function Submitted(steps: seq<Step>): seq<Parcel> {
    if |steps| == 0 then []
    else (if steps[0].Submit? then [Parcel(steps[0].star, Gravity(steps[0].wave))] else []) + Submitted(steps[1..])
  }

  /** The ending a step adds: that of the wave it submits. */
  function StepEnding(stars: Constellation, locate: Locator, step: Step): multiset<Ending> {
    if step.Submit? then multiset{EndingOf(stars, locate, Parcel(step.star, Gravity(step.wave)))} else multiset{}
  }

  lemma StepEndings(stars: Constellation, locate: Locator, net: Net, step: Step)
    requires Inv(net) && Enabled(stars, net, step)
    requires step.AnswerNext? ==> step.located == locate(net.active[step.i].job.wave)
    ensures Endings(stars, locate, Apply(stars, net, step)) == Endings(stars, locate, net)
              + StepEnding(stars, locate, step)
  {
    hide Collect;
    match step {
      case Submit(star, wave) => CollectAppend(net.active, Parcel(star, Gravity(wave)), EndingBy(stars, locate));
      case ServeNext(i) =>
        assert ParcelOk(net, net.active[i]);
        ServeKeepsEnding(stars, locate, net.active[i]);
        RecordKeepsEndings(stars, locate, net, i, Serve(stars, net.active[i]));
      case AnswerNext(i, located) =>
        RecordKeepsEndings(stars, locate, net, i, Answer(stars, net.active[i], located));
    }
  }

  lemma SubmittedEndings(stars: Constellation, locate: Locator, steps: seq<Step>)
    requires |steps| > 0
    ensures Collect(Submitted(steps), EndingBy(stars, locate)) ==
            StepEnding(stars, locate, steps[0]) + Collect(Submitted(steps[1..]), EndingBy(stars, locate))
  {
    var rest := Submitted(steps[1..]);
    if steps[0].Submit? {
      var parcel := Parcel(steps[0].star, Gravity(steps[0].wave));
      assert Submitted(steps) == [parcel] + rest;
      CollectHead([parcel] + rest, EndingBy(stars, locate));
      assert ([parcel] + rest)[1..] == rest;
    } else {
      assert Submitted(steps) == [] + rest == rest;
    }
  }

  lemma Regroup<V>(a: multiset<V>, b: multiset<V>, c: multiset<V>)
    ensures a + b + c == a + (b + c)
  {
  }

  lemma {:induction false} RunEndings(stars: Constellation, locate: Locator, net: Net, steps: seq<Step>)
    requires KeysAgree(stars) && Inv(net) && AllEnabled(stars, net, steps) && AnswersBy(stars, locate, net, steps)
    ensures Endings(stars, locate, Run(stars, net, steps))
            == Endings(stars, locate, net) + Collect(Submitted(steps), EndingBy(stars, locate))
    decreases steps
  {
    if |steps| == 0 {
      assert Submitted(steps) == [];
    } else {
      hide Collect, Endings, StepEnding, EndingBy, Inv, Submitted, Apply, Enabled, KeysAgree;
      var next := Apply(stars, net, steps[0]);
      var here := StepEnding(stars, locate, steps[0]);
      var later := Collect(Submitted(steps[1..]), EndingBy(stars, locate));
      StepKeepsInv(stars, net, steps[0]);
      StepEndings(stars, locate, net, steps[0]);
      assert Endings(stars, locate, next) == Endings(stars, locate, net) + here;
      RunEndings(stars, locate, next, steps[1..]);
      SubmittedEndings(stars, locate, steps);
      Regroup(Endings(stars, locate, net), here, later);
    }
  }

  lemma CollectHead<T, V>(xs: seq<T>, value: T -> V)
    requires |xs| > 0
    ensures Collect(xs, value) == multiset{value(xs[0])} + Collect(xs[1..], value)
  {
  }

  lemma MultisetWithout<T>(xs: seq<T>, i: nat)
    requires i < |xs|
    ensures multiset(xs) == multiset(Without(xs, i)) + multiset{xs[i]}
  {
    assert xs == xs[..i] + [xs[i]] + xs[i + 1..];
  }

  lemma {:induction false} CollectOfSameMultiset<T, V>(a: seq<T>, b: seq<T>, value: T -> V)
    requires multiset(a) == multiset(b)
    ensures Collect(a, value) == Collect(b, value)
  {
    if |a| == 0 {
      assert |multiset(a)| == 0 && |multiset(b)| == |b|;
    } else {
      hide Collect, Without;
      assert a[0] in multiset(b);
      var i :| 0 <= i < |b| && b[i] == a[0];
      var rest := Without(b, i);
      MultisetWithout(b, i);
      MultisetHead(a);
      assert multiset(a[1..]) == multiset(a) - multiset{a[0]};
      assert multiset(rest) == multiset(b) - multiset{a[0]};
      CollectOfSameMultiset(a[1..], rest, value);
      CollectWithout(b, i, value);
      CollectHead(a, value);
    }
  }

  lemma MultisetHead<T>(xs: seq<T>)
    requires |xs| > 0
    ensures multiset(xs) == multiset{xs[0]} + multiset(xs[1..])
  {
    assert xs == [xs[0]] + xs[1..];
  }

  /**
  Two runs that submit the same waves at the same stars, in any order and under
  any interleavings, end every wave alike.  When both have come to rest the
  endings are what they have handled, injected and lost.
   */
  lemma EveryInterleavingEndsAlike(stars: Constellation, locate: Locator, a: seq<Step>, b: seq<Step>)
    requires KeysAgree(stars) && multiset(Submitted(a)) == multiset(Submitted(b))
    requires AllEnabled(stars, START, a) && AnswersBy(stars, locate, START, a)
    requires AllEnabled(stars, START, b) && AnswersBy(stars, locate, START, b)
    ensures Endings(stars, locate, Run(stars, START, a)) == Endings(stars, locate, Run(stars, START, b))
  {
    StartIsSafe();
    RunEndings(stars, locate, START, a);
    RunEndings(stars, locate, START, b);
    CollectOfSameMultiset(Submitted(a), Submitted(b), EndingBy(stars, locate));
  }
}
