/**
 The clock protocol of time_sync/time_sync.cpp and time_sync/server.cpp as a
 machine over a network that may lose, duplicate, delay and reorder packets. True
 times and offsets are real numbers; what clocks show and packets carry is whole
 microseconds. The code computes nothing from the true offset.
 */
module TimeSyncProtocol {
  import opened Options
  import opened Subsequences
  import opened TimeSyncEstimator

  /** The server's clock against ours: `offset(x)` is their difference, in microseconds, when
      ours should show x. A clock shows at most its true time and lags it by at most its
      grain: 0.0 for a clock that is exact when read, 1.0 for one that counts whole
      microseconds. */
  datatype Clocks = Clocks(offset: real -> real, localGrain: real, serverGrain: real) {
    ghost predicate LocalShows(reading: int, x: real) {
      reading as real <= x <= reading as real + localGrain
    }

    ghost predicate ServerShows(reading: int, x: real) {
      reading as real <= x + offset(x) <= reading as real + serverGrain
    }
  }

  const INGEST_CAPACITY := 39

  datatype Sample = Sample(timeMs: nat, triplet: Triplet)

  datatype Pong = Pong(send: nat, serv: nat)

  datatype Published = Published(at: nat, state: SyncState)

  /** `time` is the true local time and `now` what our clock shows. `pings` and `pongs` hold
      every packet ever sent: delivery never removes one. */
  datatype World = World(
    time: real,
    now: nat,
    pings: set<nat>,
    pongs: set<Pong>,
    ingest: seq<Triplet>,
    window: seq<Sample>,
    rate: nat,
    published: seq<Published>
  )

  datatype Move =
    | Tick(time: real, now: nat)
    | SendPing                      // the send thread reads its clock and sends
    | Reply(send: nat, serv: nat)   // the server receives a ping, reads its clock and answers
    | Receive(pong: Pong)           // the receive thread gets an answer and reads its clock
    | Ingest(durationMs: nat)       // process_ingest_buffer fills and trims the window
    | Fold                          // process_ingest_buffer folds the window

  /** Time passes, and a steady clock never goes back. */
  ghost predicate Enabled(w: World, move: Move, clocks: Clocks) {
    match move
    case Tick(time, now) => w.time <= time && w.now <= now && clocks.LocalShows(now, time)
    case Reply(send, serv) => send in w.pings && clocks.ServerShows(serv, w.time)
    case Receive(pong) => pong in w.pongs
    case _ => true
  }

  function Triplets(window: seq<Sample>): (triplets: seq<Triplet>)
    ensures |triplets| == |window|
  {
    seq(|window|, i requires 0 <= i < |window| => window[i].triplet)
  }

  function MinTime(durationMs: nat, nowMs: nat): nat {
    if durationMs < nowMs then nowMs - durationMs else 0
  }

  /** remove_old_samples */
  function Unexpired(window: seq<Sample>, minTimeMs: nat): (kept: seq<Sample>)
    ensures forall s :: s in kept <==> s in window && minTimeMs <= s.timeMs
  {
    if window == [] then []
    else
      var rest := Unexpired(window[..|window| - 1], minTimeMs);
      var last := window[|window| - 1];
      assert window == window[..|window| - 1] + [last];
      if last.timeMs < minTimeMs then rest else rest + [last]
  }

  function Stamped(triplets: seq<Triplet>, nowMs: nat): (samples: seq<Sample>)
    ensures |samples| == |triplets|
    ensures forall i :: 0 <= i < |samples| ==> samples[i] == Sample(nowMs, triplets[i])
  {
    seq(|triplets|, i requires 0 <= i < |triplets| => Sample(nowMs, triplets[i]))
  }

  /** ps are the positions of the samples that are no more than the duration old. */
  ghost predicate AreTheRecent(ps: seq<nat>, window: seq<Sample>, durationMs: nat, nowMs: nat) {
    forall p: nat :: p in ps <==> p < |window| && nowMs <= window[p].timeMs + durationMs
  }

  /** `after` holds, in order and once each, just those samples of `before`. */
  ghost predicate KeepsTheRecent(before: seq<Sample>, after: seq<Sample>, durationMs: nat, nowMs: nat) {
    exists ps: seq<nat> :: Selects(before, ps, after) && AreTheRecent(ps, before, durationMs, nowMs)
  }

  lemma OneMoreRecent(ps: seq<nat>, window: seq<Sample>, s: Sample, durationMs: nat, nowMs: nat)
    requires AreTheRecent(ps, window, durationMs, nowMs)
    ensures AreTheRecent(if nowMs <= s.timeMs + durationMs then ps + [|window|] else ps,
                         window + [s], durationMs, nowMs)
  {
  }

  lemma UnexpiredOneMore(window: seq<Sample>, s: Sample, durationMs: nat, nowMs: nat)
    ensures
      var kept := Unexpired(window, MinTime(durationMs, nowMs));
      Unexpired(window + [s], MinTime(durationMs, nowMs)) ==
      if nowMs <= s.timeMs + durationMs then kept + [s] else kept
  {
    assert (window + [s])[..|window|] == window;
  }

  lemma {:induction false} TrimmingKeepsTheRecent(window: seq<Sample>, durationMs: nat, nowMs: nat)
    ensures KeepsTheRecent(window, Unexpired(window, MinTime(durationMs, nowMs)), durationMs, nowMs)
  {
    hide Selects, AreTheRecent, Unexpired, MinTime;
    if window == [] {
      NothingToTrim(durationMs, nowMs);
    } else {
      var n := |window| - 1;
      var earlier, last := window[..n], window[n];
      assert window == earlier + [last];
      TrimmingKeepsTheRecent(earlier, durationMs, nowMs);
      var kept := Unexpired(earlier, MinTime(durationMs, nowMs));
      var ps: seq<nat> :| Selects(earlier, ps, kept) && AreTheRecent(ps, earlier, durationMs, nowMs);
      SelectOneMore(earlier, ps, kept, last);
      OneMoreRecent(ps, earlier, last, durationMs, nowMs);
      UnexpiredOneMore(earlier, last, durationMs, nowMs);
    }
  }

  lemma NothingToTrim(durationMs: nat, nowMs: nat)
    ensures KeepsTheRecent([], Unexpired([], MinTime(durationMs, nowMs)), durationMs, nowMs)
  {
    assert Selects<Sample>([], [], []) && AreTheRecent([], [], durationMs, nowMs);
  }

  /** The new window: every sample of the old one that is no more than the duration old,
      and then all that were queued, stamped with the present; in order, once each. */
  lemma RefillKeepsTheRecent(window: seq<Sample>, triplets: seq<Triplet>, durationMs: nat, nowMs: nat)
    returns (ps: seq<nat>)
    ensures Increasing(ps) && |Refill(window, triplets, durationMs, nowMs)| == |ps|
    ensures forall p: nat :: p in ps <==>
              p < |window| + |triplets| && (p < |window| ==> nowMs <= window[p].timeMs + durationMs)
    ensures forall i :: 0 <= i < |ps| ==>
              && ps[i] < |window| + |triplets|
              && Refill(window, triplets, durationMs, nowMs)[i] ==
                 if ps[i] < |window| then window[ps[i]] else Sample(nowMs, triplets[ps[i] - |window|])
  {
    hide Unexpired, MinTime;
    var all := window + Stamped(triplets, nowMs);
    var kept := Refill(window, triplets, durationMs, nowMs);
    TrimmingKeepsTheRecent(all, durationMs, nowMs);
    ps :| Selects(all, ps, kept) && AreTheRecent(ps, all, durationMs, nowMs);
    assert forall p: nat :: p < |all| ==>
             all[p] == if p < |window| then window[p] else Sample(nowMs, triplets[p - |window|]);
  }

  function Refill(window: seq<Sample>, triplets: seq<Triplet>, durationMs: nat, nowMs: nat): seq<Sample> {
    Unexpired(window + Stamped(triplets, nowMs), MinTime(durationMs, nowMs))
  }

  function Step(w: World, move: Move): World {
    match move
    case Tick(time, now) => w.(time := time, now := now)
    case SendPing => w.(pings := w.pings + {w.now})
    case Reply(send, serv) => w.(pongs := w.pongs + {Pong(send, serv)})
    case Receive(pong) =>
      if |w.ingest| == INGEST_CAPACITY then w  // "ingest buffer full"
      else w.(ingest := w.ingest + [Triplet(pong.send, pong.serv, w.now)])
    case Ingest(durationMs) => w.(ingest := [], window := Refill(w.window, w.ingest, durationMs, w.now / 1000))
    case Fold =>
      var (rate, outcome) := Process(w.rate, w.now, Triplets(w.window));
      w.(rate := rate,
         published := if outcome.Estimate? then w.published + [Published(w.now, outcome.state)] else w.published)
  }

  ghost predicate Init(w: World, clocks: Clocks) {
    && clocks.LocalShows(w.now, w.time)
    && w.pings == {} && w.pongs == {} && w.ingest == [] && w.window == [] && w.published == []
  }

  // ---------------------------------------------------------------- where samples come from

  /** The server read its clock at local time `t`, between our sending and our receiving. */
  ghost predicate ReadAt(tr: Triplet, t: real, clocks: Clocks) {
    tr.send as real <= t <= tr.recv as real + clocks.localGrain && clocks.ServerShows(tr.serv, t)
  }

  ghost predicate Genuine(tr: Triplet, time: real, clocks: Clocks) {
    exists t :: t <= time && ReadAt(tr, t, clocks)
  }

  ghost predicate GenuinePong(p: Pong, time: real, clocks: Clocks) {
    exists t :: p.send as real <= t <= time && clocks.ServerShows(p.serv, t)
  }

  ghost predicate InWindow(tr: Triplet, now: nat, time: real, clocks: Clocks) {
    tr.send <= tr.recv <= now && Genuine(tr, time, clocks)
  }

  ghost predicate Inv(w: World, clocks: Clocks) {
    && clocks.LocalShows(w.now, w.time)
    && (forall p :: p in w.pings ==> p <= w.now)
    && (forall p :: p in w.pongs ==> p.send <= w.now && GenuinePong(p, w.time, clocks))
    && (forall tr :: tr in w.ingest ==> InWindow(tr, w.now, w.time, clocks))
    && (forall s :: s in w.window ==> InWindow(s.triplet, w.now, w.time, clocks))
  }

  lemma TimePreservesPong(p: Pong, time: real, later: real, clocks: Clocks)
    requires GenuinePong(p, time, clocks) && time <= later
    ensures GenuinePong(p, later, clocks)
  {
    var t :| p.send as real <= t <= time && clocks.ServerShows(p.serv, t);
    assert t <= later;
  }

  lemma TimePreservesTriplet(tr: Triplet, w: World, later: real, now: nat, clocks: Clocks)
    requires InWindow(tr, w.now, w.time, clocks) && w.time <= later && w.now <= now
    ensures InWindow(tr, now, later, clocks)
  {
    var t :| t <= w.time && ReadAt(tr, t, clocks);
    assert t <= later;
  }

  lemma TickKeepsInv(w: World, time: real, now: nat, clocks: Clocks)
    requires Inv(w, clocks) && Enabled(w, Tick(time, now), clocks)
    ensures Inv(Step(w, Tick(time, now)), clocks)
  {
    forall p | p in w.pongs
      ensures GenuinePong(p, time, clocks)
    {
      TimePreservesPong(p, w.time, time, clocks);
    }
    forall tr | InWindow(tr, w.now, w.time, clocks)
      ensures InWindow(tr, now, time, clocks)
    {
      TimePreservesTriplet(tr, w, time, now, clocks);
    }
  }

  /** What is received now was read before, and is stamped with what our clock shows. */
  lemma ReceiveKeepsInv(w: World, pong: Pong, clocks: Clocks)
    requires Inv(w, clocks) && Enabled(w, Receive(pong), clocks)
    ensures Inv(Step(w, Receive(pong)), clocks)
  {
    var t :| pong.send as real <= t <= w.time && clocks.ServerShows(pong.serv, t);
    assert ReadAt(Triplet(pong.send, pong.serv, w.now), t, clocks);
  }

  lemma ReplyKeepsInv(w: World, send: nat, serv: nat, clocks: Clocks)
    requires Inv(w, clocks) && Enabled(w, Reply(send, serv), clocks)
    ensures Inv(Step(w, Reply(send, serv)), clocks)
  {
    assert send as real <= w.time;
    assert GenuinePong(Pong(send, serv), w.time, clocks);
  }

  lemma IngestKeepsInv(w: World, durationMs: nat, clocks: Clocks)
    requires Inv(w, clocks)
    ensures Inv(Step(w, Ingest(durationMs)), clocks)
  {
    forall s | s in Stamped(w.ingest, w.now / 1000)
      ensures s.triplet in w.ingest
    {
    }
  }

  lemma StepKeepsInv(w: World, move: Move, clocks: Clocks)
    requires Inv(w, clocks) && Enabled(w, move, clocks)
    ensures Inv(Step(w, move), clocks)
  {
    match move
    case Tick(time, now) => TickKeepsInv(w, time, now, clocks);
    case Reply(send, serv) => ReplyKeepsInv(w, send, serv, clocks);
    case Receive(pong) => ReceiveKeepsInv(w, pong, clocks);
    case Ingest(durationMs) => IngestKeepsInv(w, durationMs, clocks);
    case _ =>
  }

  ghost predicate IsRun(w: World, moves: seq<Move>, clocks: Clocks)
    decreases |moves|
  {
    moves == [] || (Enabled(w, moves[0], clocks) && IsRun(Step(w, moves[0]), moves[1..], clocks))
  }

  ghost function Exec(w: World, moves: seq<Move>): World
    decreases |moves|
  {
    if moves == [] then w else Exec(Step(w, moves[0]), moves[1..])
  }

  lemma {:induction false} RunKeepsInv(w: World, moves: seq<Move>, clocks: Clocks)
    requires Inv(w, clocks) && IsRun(w, moves, clocks)
    ensures Inv(Exec(w, moves), clocks)
    decreases |moves|
  {
    if moves != [] {
      StepKeepsInv(w, moves[0], clocks);
      RunKeepsInv(Step(w, moves[0]), moves[1..], clocks);
    }
  }

  lemma InvMakesWindowSane(w: World, clocks: Clocks)
    requires Inv(w, clocks)
    ensures AllSane(Triplets(w.window), w.now)
    ensures forall tr :: tr in Triplets(w.window) ==> Genuine(tr, w.time, clocks)
  {
    forall tr | tr in Triplets(w.window)
      ensures InWindow(tr, w.now, w.time, clocks)
    {
      var i :| 0 <= i < |w.window| && w.window[i].triplet == tr;
      assert w.window[i] in w.window;
    }
  }

  /** Whatever the network does, the CHECKs on the window never fire, and each sample's
      server time was read at a local instant of its own round trip. */
  lemma ChecksNeverFire(w0: World, moves: seq<Move>, clocks: Clocks)
    requires Init(w0, clocks) && IsRun(w0, moves, clocks)
    ensures
      var w := Exec(w0, moves);
      && !Process(w.rate, w.now, Triplets(w.window)).1.CheckFailed?
      && forall tr :: tr in Triplets(w.window) ==>
           tr.send <= tr.recv <= w.now && exists t :: ReadAt(tr, t, clocks)
  {
    RunKeepsInv(w0, moves, clocks);
    InvMakesWindowSane(Exec(w0, moves), clocks);
  }

  /** The moves of one undisturbed exchange and the pass that follows it. */
  function RoundTrip(send: nat, reply: Move, arrival: Move, serv: nat, durationMs: nat): seq<Move> {
    [SendPing, reply, Reply(send, serv), arrival, Receive(Pong(send, serv)), Ingest(durationMs), Fold]
  }

  lemma ExecOne(w: World, move: Move, rest: seq<Move>, clocks: Clocks)
    ensures Exec(w, [move] + rest) == Exec(Step(w, move), rest)
    ensures IsRun(w, [move] + rest, clocks) <==> Enabled(w, move, clocks) && IsRun(Step(w, move), rest, clocks)
  {
    assert ([move] + rest)[1..] == rest;
  }

  lemma ExecThree(w: World, a: Move, b: Move, c: Move, rest: seq<Move>, clocks: Clocks)
    ensures Exec(w, [a, b, c] + rest) == Exec(Step(Step(Step(w, a), b), c), rest)
    ensures IsRun(w, [a, b, c] + rest, clocks) <==>
            && Enabled(w, a, clocks) && Enabled(Step(w, a), b, clocks) && Enabled(Step(Step(w, a), b), c, clocks)
            && IsRun(Step(Step(Step(w, a), b), c), rest, clocks)
  {
    hide Step, Enabled;
    ExecOne(w, a, [b, c] + rest, clocks);
    ExecOne(Step(w, a), b, [c] + rest, clocks);
    ExecOne(Step(Step(w, a), b), c, rest, clocks);
    assert [a] + ([b, c] + rest) == [a, b, c] + rest && [b] + ([c] + rest) == [b, c] + rest;
  }

  /** An undisturbed exchange on an empty window publishes: the interval is the round trip
      and twice the drift, about the difference of the server's time and the middle. */
  lemma RoundTripPublishes(w: World, t1: real, n1: nat, t2: real, n2: nat, serv: nat, durationMs: nat, clocks: Clocks)
    requires w.ingest == [] && w.window == []
    requires w.time <= t1 <= t2 && w.now <= n1 <= n2 && w.now < n2
    requires clocks.LocalShows(n1, t1) && clocks.LocalShows(n2, t2) && clocks.ServerShows(serv, t1)
    ensures
      var moves := RoundTrip(w.now, Tick(t1, n1), Tick(t2, n2), serv, durationMs);
      var after := Exec(w, moves);
      var rtt, drift := n2 - w.now, Scaled(w.rate, n2 - (w.now + n2) / 2);
      && IsRun(w, moves, clocks)
      && |after.published| == |w.published| + 1 && after.published[..|w.published|] == w.published
      && var news := after.published[|w.published|];
         && news.at == n2
         && news.state.observedRtt == rtt
         && news.state.minRtt == rtt + 2 * drift
         && 2 * serv - n2 - w.now - 1 <= 2 * news.state.offsetEstimate <= 2 * serv - n2 - w.now + 1
         && 10 * after.rate <= 9 * w.rate < 10 * after.rate + 10
  {
    hide Step, Enabled, Exec, IsRun, Scaled;
    var send := w.now;
    var sent := Asked(w, t1, n1, serv, clocks);
    var got := Answered(w, sent, t2, n2, serv, durationMs, clocks);
    var late := [Tick(t2, n2), Receive(Pong(send, serv)), Ingest(durationMs)];
    ExecThree(w, SendPing, Tick(t1, n1), Reply(send, serv), late + [Fold], clocks);
    ExecThree(sent, late[0], late[1], late[2], [Fold], clocks);
    assert RoundTrip(send, Tick(t1, n1), Tick(t2, n2), serv, durationMs) ==
           [SendPing, Tick(t1, n1), Reply(send, serv)] + (late + [Fold]);
    assert late + [Fold] == [late[0], late[1], late[2]] + [Fold];
    FoldOfOne(got, Sample(n2 / 1000, Triplet(send, serv, n2)), clocks);
  }

  lemma Asked(w: World, time: real, now: nat, serv: nat, clocks: Clocks) returns (sent: World)
    requires w.time <= time && w.now <= now && clocks.LocalShows(now, time) && clocks.ServerShows(serv, time)
    ensures Enabled(w, SendPing, clocks) && Enabled(Step(w, SendPing), Tick(time, now), clocks)
    ensures Enabled(Step(Step(w, SendPing), Tick(time, now)), Reply(w.now, serv), clocks)
    ensures sent == Step(Step(Step(w, SendPing), Tick(time, now)), Reply(w.now, serv))
    ensures Pong(w.now, serv) in sent.pongs && sent.time == time && sent.now == now
    ensures sent.ingest == w.ingest && sent.window == w.window && sent.rate == w.rate && sent.published == w.published
  {
    sent := Step(Step(Step(w, SendPing), Tick(time, now)), Reply(w.now, serv));
  }

  lemma Answered(w: World, sent: World, time: real, now: nat, serv: nat, durationMs: nat, clocks: Clocks)
    returns (got: World)
    requires Pong(w.now, serv) in sent.pongs && sent.ingest == [] && sent.window == []
    requires sent.time <= time && sent.now <= now && clocks.LocalShows(now, time)
    ensures Enabled(sent, Tick(time, now), clocks)
    ensures Enabled(Step(sent, Tick(time, now)), Receive(Pong(w.now, serv)), clocks)
    ensures Enabled(Step(Step(sent, Tick(time, now)), Receive(Pong(w.now, serv))), Ingest(durationMs), clocks)
    ensures got == Step(Step(Step(sent, Tick(time, now)), Receive(Pong(w.now, serv))), Ingest(durationMs))
    ensures got.now == now && got.rate == sent.rate && got.published == sent.published
    ensures got.window == [Sample(now / 1000, Triplet(w.now, serv, now))]
  {
    hide Refill;
    var arrived := Step(Step(sent, Tick(time, now)), Receive(Pong(w.now, serv)));
    var triplets := [Triplet(w.now, serv, now)];
    assert arrived.ingest == triplets;
    got := Step(arrived, Ingest(durationMs));
    var ps := RefillKeepsTheRecent([], triplets, durationMs, now / 1000);
    assert 0 in ps && forall p :: p in ps ==> p == 0;
    assert ps[0] in ps && ps[|ps| - 1] in ps;
    assert |ps| == 1;
  }

  /** A pass over a single sample. */
  lemma FoldOfOne(w: World, s: Sample, clocks: Clocks)
    requires w.window == [s] && s.triplet.send < s.triplet.recv <= w.now
    ensures
      var after, t := Exec(w, [Fold]), s.triplet;
      var drift := Drift(w.rate, w.now, t);
      && IsRun(w, [Fold], clocks)
      && |after.published| == |w.published| + 1 && after.published[..|w.published|] == w.published
      && var news := after.published[|w.published|];
         && news.at == w.now
         && news.state.observedRtt == t.recv - t.send
         && news.state.minRtt == t.recv - t.send + 2 * drift
         && 2 * t.serv - t.recv - t.send - 1 <= 2 * news.state.offsetEstimate <= 2 * t.serv - t.recv - t.send + 1
         && 10 * after.rate <= 9 * w.rate < 10 * after.rate + 10
  {
    hide Process, Drift;
    assert Triplets(w.window) == [s.triplet];
    var lo, hi, quick := OnePass(w.rate, w.now, [s.triplet]);
    assert lo == hi == quick == s.triplet;
    ExecOne(w, Fold, [], clocks);
    assert [Fold] + [] == [Fold];
  }

  // ---------------------------------------------------------------- constant offset

  ghost predicate IsConstant(offset: real -> real, theta: real) {
    forall t :: offset(t) == theta
  }

  /** Exact but for the grain of the clocks: with exact clocks it is enclosed. */
  lemma ConstantOffsetIsEnclosed(rate: nat, now: nat, time: real, samples: seq<Triplet>, clocks: Clocks, theta: real)
    requires IsConstant(clocks.offset, theta) && samples != []
    requires AllSane(samples, now) && forall tr :: tr in samples ==> Genuine(tr, time, clocks)
    ensures
      var m := Merge(rate, now, samples);
      m.lb as real - clocks.localGrain <= theta <= m.ub as real + clocks.serverGrain
  {
    MergeIsTightest(rate, now, samples);
    forall tr | tr in samples
      ensures Lower(rate, now, tr) as real - clocks.localGrain <= theta
      ensures theta <= Upper(rate, now, tr) as real + clocks.serverGrain
    {
      var t :| ReadAt(tr, t, clocks);
    }
  }

  /** Half the width, rounded up, and the grain of the clock that the error favours. */
  ghost predicate IsAccurate(state: SyncState, clocks: Clocks, theta: real) {
    var half := ((state.minRtt + 1) / 2) as real;
    -half - clocks.serverGrain <= state.offsetEstimate as real - theta <= half + clocks.localGrain
  }

  ghost predicate AllAccurate(published: seq<Published>, clocks: Clocks, theta: real) {
    forall p :: p in published ==> IsAccurate(p.state, clocks, theta)
  }

  lemma MidpointIsAccurate(lb: int, ub: int, theta: real, clocks: Clocks, state: SyncState)
    requires lb as real - clocks.localGrain <= theta <= ub as real + clocks.serverGrain
    requires lb < ub && state.offsetEstimate == Half(ub + lb) && state.minRtt == ub - lb
    ensures IsAccurate(state, clocks, theta)
  {
    var half := (state.minRtt + 1) / 2;
    assert -half <= state.offsetEstimate - ub && state.offsetEstimate - lb <= half;
  }

  lemma EstimateIsAccurate(w: World, clocks: Clocks, theta: real)
    requires Inv(w, clocks) && IsConstant(clocks.offset, theta) && AllAccurate(w.published, clocks, theta)
    ensures AllAccurate(Step(w, Fold).published, clocks, theta)
  {
    hide Inv, IsAccurate, IsConstant, Merge, Half, Genuine;
    InvMakesWindowSane(w, clocks);
    var samples := Triplets(w.window);
    var outcome := Process(w.rate, w.now, samples).1;
    if outcome.Estimate? {
      var m := Merge(w.rate, w.now, samples);
      ObservedIsLeast(w.rate, w.now, samples);
      ConstantOffsetIsEnclosed(w.rate, w.now, w.time, samples, clocks, theta);
      MidpointIsAccurate(m.lb, m.ub, theta, clocks, outcome.state);
    }
  }

  lemma {:induction false} RunIsAccurate(w: World, moves: seq<Move>, clocks: Clocks, theta: real)
    requires Inv(w, clocks) && IsRun(w, moves, clocks)
    requires IsConstant(clocks.offset, theta) && AllAccurate(w.published, clocks, theta)
    ensures AllAccurate(Exec(w, moves).published, clocks, theta)
    decreases |moves|
  {
    if moves != [] {
      StepKeepsInv(w, moves[0], clocks);
      if moves[0].Fold? {
        EstimateIsAccurate(w, clocks, theta);
      }
      RunIsAccurate(Step(w, moves[0]), moves[1..], clocks, theta);
    }
  }

  /** With a constant true offset, every estimate ever published is within half the
      published width (rounded up), and a clock's grain, of the truth. */
  lemma PublishedEstimatesAreAccurate(w0: World, moves: seq<Move>, clocks: Clocks, theta: real)
    requires Init(w0, clocks) && IsRun(w0, moves, clocks) && IsConstant(clocks.offset, theta)
    ensures AllAccurate(Exec(w0, moves).published, clocks, theta)
  {
    RunIsAccurate(w0, moves, clocks, theta);
  }
}
