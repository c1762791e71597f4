/** The locked snapshot cache of the portal status API: the object with its deep copies, one locked
    call as a function, and every interleaving of callers that read the clock before the lock. */
module StatusCache {
  import opened Rounding
  import opened Text

  // ---- one call, as a function -------------------------------------------------------------

  /** What a client can see of a snapshot; `content` is everything outside the source section. */
  datatype View<T> = View(prometheusReady: bool, stale: bool, cacheAgeSeconds: real, content: T)

  /** The last successful build, and the clock reading of the call that made it. */
  datatype Cache<T> = Empty | Filled(view: View<T>, at: real)

  datatype Limits = Limits(ttl: real, staleTtl: real)

  /** The effect of one locked call; `built` is what the build would yield, None if it fails. */
  datatype Served<T> = Served(cache: Cache<T>, answer: Option<View<T>>, refreshed: bool)

  predicate Fresh<T>(c: Cache<T>, now: real, limits: Limits) {
    c.Filled? && now - c.at < limits.ttl
  }

  function Serve<T>(c: Cache<T>, now: real, built: Option<View<T>>, limits: Limits): Served<T> {
    if Fresh(c, now, limits) then
      Served(c, Some(c.view.(cacheAgeSeconds := Round3(now - c.at))), false)
    else if built.Some? then
      Served(Filled(built.value, now), Some(built.value), true)
    else if c.Empty? || now - c.at >= limits.staleTtl then
      Served(c, None, false)
    else
      Served(c, Some(c.view.(stale := true, cacheAgeSeconds := Round3(now - c.at))), false)
  }

  // ---- the objects -------------------------------------------------------------------------

  class Source {
    var prometheusReady: bool
    var stale: bool
    var cacheAgeSeconds: real

    constructor (prometheusReady: bool, stale: bool, cacheAgeSeconds: real)
      ensures this.prometheusReady == prometheusReady && this.stale == stale && this.cacheAgeSeconds == cacheAgeSeconds
    {
      this.prometheusReady, this.stale, this.cacheAgeSeconds := prometheusReady, stale, cacheAgeSeconds;
    }
  }

  class Body<T> {
    var content: T

    constructor (content: T)
      ensures this.content == content
    {
      this.content := content;
    }
  }

  /** A snapshot dictionary with its nested dictionaries. */
  class Snapshot<T> {
    var source: Source
    var body: Body<T>

    constructor (view: View<T>)
      ensures Value() == view && fresh(Repr())
    {
      source := new Source(view.prometheusReady, view.stale, view.cacheAgeSeconds);
      body := new Body(view.content);
    }

    function Repr(): set<object>
      reads this
    {
      {this, source, body}
    }

    function Value(): View<T>
      reads Repr()
    {
      View(source.prometheusReady, source.stale, source.cacheAgeSeconds, body.content)
    }

    /** What a client can do to a snapshot that it holds. */
    method Overwrite(junk: View<T>)
      modifies source, body
      ensures Value() == junk
    {
      source.prometheusReady, source.stale, source.cacheAgeSeconds := junk.prometheusReady, junk.stale, junk.cacheAgeSeconds;
      body.content := junk.content;
    }

    method DeepCopy() returns (copy: Snapshot<T>)
      ensures copy.Value() == Value() && fresh(copy.Repr())
    {
      copy := new Snapshot(Value());
    }
  }

  class StatusCache<T> {
    const limits: Limits
    var cached: Snapshot?<T>
    var cachedAt: real

    constructor (limits: Limits)
      ensures State() == Empty && fresh(Repr()) && this.limits == limits
    {
      this.limits := limits;
      cached, cachedAt := null, 0.0;
    }

    function Repr(): set<object>
      reads this, if cached == null then {} else {cached}
    {
      {this} + if cached == null then {} else cached.Repr()
    }

    function State(): Cache<T>
      reads Repr()
    {
      if cached == null then Empty else Filled(cached.Value(), cachedAt)
    }

    /** The body of the lock. The answer shares nothing with what stays cached. */
    method GetSnapshot(now: real, built: Option<View<T>>) returns (answer: Option<Snapshot<T>>)
      modifies this
      ensures State() == Serve(old(State()), now, built, limits).cache
      ensures answer.Some? <==> Serve(old(State()), now, built, limits).answer.Some?
      ensures answer.Some? ==> Some(answer.value.Value()) == Serve(old(State()), now, built, limits).answer
      ensures answer.Some? ==> fresh(answer.value.Repr()) && answer.value.Repr() !! Repr()
      ensures fresh(Repr() - old(Repr()))
    {
      if cached != null && now - cachedAt < limits.ttl {
        var snapshot := cached.DeepCopy();
        snapshot.source.cacheAgeSeconds := Round3(now - cachedAt);
        return Some(snapshot);
      }
      if built.None? {
        if cached == null || now - cachedAt >= limits.staleTtl {
          return None;
        }
        var snapshot := cached.DeepCopy();
        snapshot.source.stale := true;
        snapshot.source.cacheAgeSeconds := Round3(now - cachedAt);
        return Some(snapshot);
      }
      var snapshot := new Snapshot(built.value);
      cached := snapshot.DeepCopy();
      cachedAt := now;
      return Some(snapshot);
    }
  }

  /** What clients do: call, or write whatever they like into an answer that they got earlier. */
  datatype ClientStep<T> =
    | Ask(now: real, built: Option<View<T>>)
    | Write(answer: nat, junk: View<T>)

  /** The calls of a session, as if nobody had written anything. */
  function Undisturbed<T>(c: Cache<T>, steps: seq<ClientStep<T>>, limits: Limits): (Cache<T>, seq<Option<View<T>>>) {
    if steps == [] then (c, [])
    else
      var (before, answers) := Undisturbed(c, steps[..|steps| - 1], limits);
      match steps[|steps| - 1]
      case Ask(now, built) =>
        var served := Serve(before, now, built, limits);
        (served.cache, answers + [served.answer])
      case Write(_, _) => (before, answers)
  }

  /** Whatever clients write into whichever of their answers, and whenever they do, every answer is
      what it would have been had they written nothing. */
  method MutatingAnswers<T>(cache: StatusCache<T>, steps: seq<ClientStep<T>>) returns (answers: seq<Option<View<T>>>)
    modifies cache
    ensures (cache.State(), answers) == Undisturbed(old(cache.State()), steps, cache.limits)
  {
    answers := [];
    var held: seq<Snapshot<T>> := [];
    for i := 0 to |steps|
      invariant (cache.State(), answers) == Undisturbed(old(cache.State()), steps[..i], cache.limits)
      invariant fresh(cache.Repr() - old(cache.Repr()))
      invariant forall k | 0 <= k < |held| :: fresh(held[k].Repr()) && held[k].Repr() !! cache.Repr()
    {
      assert steps[..i + 1][..i] == steps[..i];
      match steps[i] {
        case Ask(now, built) =>
          var answer := cache.GetSnapshot(now, built);
          if answer.Some? {
            answers := answers + [Some(answer.value.Value())];
            held := held + [answer.value];
          } else {
            answers := answers + [None];
          }
        case Write(k, junk) =>
          if k < |held| {
            held[k].Overwrite(junk);
          }
      }
    }
    assert steps[..|steps|] == steps;
  }

  // ---- interleavings -----------------------------------------------------------------------

  /** Time passes; a caller reads the clock; a waiting caller takes the lock and is served. */
  datatype Move<T> =
    | Tick(elapsed: real)
    | ReadClock(caller: nat)
    | TakeLock(caller: nat, built: Option<View<T>>)

  datatype Call<T> = Call(now: real, built: Option<View<T>>, before: Cache<T>, served: Served<T>)

  datatype System<T> = System(clock: real, waiting: map<nat, real>, cache: Cache<T>, calls: seq<Call<T>>)

  function Start<T>(clock: real): System<T> {
    System(clock, map[], Empty, [])
  }

  function Do<T>(s: System<T>, m: Move<T>, limits: Limits): System<T> {
    match m
    case Tick(elapsed) => if elapsed >= 0.0 then s.(clock := s.clock + elapsed) else s
    case ReadClock(caller) => if caller in s.waiting then s else s.(waiting := s.waiting[caller := s.clock])
    case TakeLock(caller, built) =>
      if caller !in s.waiting then s
      else
        var now := s.waiting[caller];
        var served := Serve(s.cache, now, built, limits);
        s.(waiting := s.waiting - {caller}, cache := served.cache,
           calls := s.calls + [Call(now, built, s.cache, served)])
  }

  function Execute<T>(clock: real, moves: seq<Move<T>>, limits: Limits): System<T> {
    if moves == [] then Start(clock)
    else Do(Execute(clock, moves[..|moves| - 1], limits), moves[|moves| - 1], limits)
  }

  /** The clock readings of the calls that refreshed the cache. */
  function Stamps<T>(calls: seq<Call<T>>): seq<real> {
    if calls == [] then []
    else
      var last := calls[|calls| - 1];
      Stamps(calls[..|calls| - 1]) + if last.served.refreshed then [last.now] else []
  }

  ghost predicate Spaced(stamps: seq<real>, gap: real) {
    forall i | 0 < i < |stamps| :: stamps[i] - stamps[i - 1] >= gap
  }

  /** Some call before the n-th refreshed the cache with this view. */
  ghost predicate BuiltBefore<T>(calls: seq<Call<T>>, n: nat, view: View<T>) {
    exists k :: 0 <= k < n && k < |calls| && calls[k].served.refreshed && calls[k].built == Some(view)
  }

  /** What is true of the n-th call. */
  ghost predicate Sound<T>(calls: seq<Call<T>>, n: nat, limits: Limits)
    requires n < |calls|
  {
    var c := calls[n];
    && c.served == Serve(c.before, c.now, c.built, limits)
    && (c.before.Filled? ==> BuiltBefore(calls, n, c.before.view))
  }

  ghost predicate Invariant<T>(start: real, s: System<T>, limits: Limits) {
    && start <= s.clock
    && (forall t | t in s.waiting :: start <= s.waiting[t] <= s.clock)
    && (forall n | 0 <= n < |s.calls| :: Sound(s.calls, n, limits))
    && (s.cache.Filled? ==>
          && BuiltBefore(s.calls, |s.calls|, s.cache.view)
          && Stamps(s.calls) != [] && Stamps(s.calls)[|Stamps(s.calls)| - 1] == s.cache.at)
    && (s.cache.Empty? ==> Stamps(s.calls) == [])
    && Spaced(Stamps(s.calls), limits.ttl)
    && (forall i | 0 <= i < |Stamps(s.calls)| :: start <= Stamps(s.calls)[i] <= s.clock)
  }

  /** The state after a call, and the call that was recorded. */
  lemma CallRecorded<T>(s: System<T>, caller: nat, built: Option<View<T>>, limits: Limits)
    requires caller in s.waiting
    ensures var next := Do(s, TakeLock(caller, built), limits);
            && |next.calls| == |s.calls| + 1 && next.calls[..|s.calls|] == s.calls && next.clock == s.clock
            && next.calls[|s.calls|] == Call(s.waiting[caller], built, s.cache, Serve(s.cache, s.waiting[caller], built, limits))
            && next.cache == Serve(s.cache, s.waiting[caller], built, limits).cache
            && Stamps(next.calls) == Stamps(s.calls) + if next.calls[|s.calls|].served.refreshed then [s.waiting[caller]] else []
  {
  }

  lemma CallKeepsSound<T>(start: real, s: System<T>, caller: nat, built: Option<View<T>>, limits: Limits)
    requires Invariant(start, s, limits) && caller in s.waiting
    ensures var next := Do(s, TakeLock(caller, built), limits);
            forall n | 0 <= n < |next.calls| :: Sound(next.calls, n, limits)
  {
    hide Serve, Stamps, Spaced, BuiltBefore;
    var next := Do(s, TakeLock(caller, built), limits);
    CallRecorded(s, caller, built, limits);
    hide Do;
    forall n | 0 <= n < |next.calls| ensures Sound(next.calls, n, limits) {
      assert n < |s.calls| ==> Sound(s.calls, n, limits);
      KeepsBuilt(s.calls, next.calls, n);
    }
  }

  lemma CallKeepsCache<T>(start: real, s: System<T>, caller: nat, built: Option<View<T>>, limits: Limits)
    requires Invariant(start, s, limits) && caller in s.waiting
    ensures var next := Do(s, TakeLock(caller, built), limits);
            next.cache.Filled? ==> BuiltBefore(next.calls, |next.calls|, next.cache.view)
  {
    hide Stamps, Spaced, Sound;
    var next := Do(s, TakeLock(caller, built), limits);
    CallRecorded(s, caller, built, limits);
    hide Do;
    KeepsBuilt(s.calls, next.calls, |s.calls|);
    if next.calls[|s.calls|].served.refreshed {
      assert next.calls[|s.calls|].built == Some(next.cache.view);
    } else if next.cache.Filled? {
      assert BuiltBefore(next.calls, |s.calls|, next.cache.view);
    }
  }

  lemma CallKeepsInvariant<T>(start: real, s: System<T>, caller: nat, built: Option<View<T>>, limits: Limits)
    requires Invariant(start, s, limits) && caller in s.waiting
    ensures Invariant(start, Do(s, TakeLock(caller, built), limits), limits)
  {
    hide Stamps, Sound, BuiltBefore;
    CallRecorded(s, caller, built, limits);
    CallKeepsSound(start, s, caller, built, limits);
    CallKeepsCache(start, s, caller, built, limits);
  }

  lemma KeepsBuilt<T>(calls: seq<Call<T>>, more: seq<Call<T>>, n: nat)
    requires |calls| <= |more| && more[..|calls|] == calls && n <= |calls|
    ensures forall view :: BuiltBefore(calls, n, view) <==> BuiltBefore(more, n, view)
  {
  }

  lemma {:induction false} InvariantHolds<T>(start: real, moves: seq<Move<T>>, limits: Limits)
    ensures Invariant(start, Execute(start, moves, limits), limits)
  {
    if moves == [] {
    } else {
      var earlier := moves[..|moves| - 1];
      InvariantHolds(start, earlier, limits);
      var s := Execute(start, earlier, limits);
      match moves[|moves| - 1] {
        case Tick(_) =>
        case ReadClock(_) =>
        case TakeLock(caller, built) =>
          if caller in s.waiting {
            CallKeepsInvariant(start, s, caller, built, limits);
          }
      }
    }
  }

  lemma {:induction false} SpacedSpan(stamps: seq<real>, gap: real)
    requires Spaced(stamps, gap) && stamps != []
    ensures (|stamps| - 1) as real * gap <= stamps[|stamps| - 1] - stamps[0]
  {
    if |stamps| <= 1 {
    } else {
      var earlier := stamps[..|stamps| - 1];
      SpacedSpan(earlier, gap);
      assert (|stamps| - 1) as real * gap == (|earlier| - 1) as real * gap + gap;
    }
  }

  lemma SpanWithin(stamps: seq<real>, gap: real, start: real, end: real)
    requires Spaced(stamps, gap) && stamps != []
    requires start <= stamps[0] && stamps[|stamps| - 1] <= end
    ensures (|stamps| - 1) as real * gap <= end - start
  {
    SpacedSpan(stamps, gap);
  }

  /** However callers interleave, refreshes are at least a TTL apart, so k of them take at least
      (k - 1) TTLs of real time. */
  lemma RefreshesAreRationed<T>(start: real, moves: seq<Move<T>>, limits: Limits)
    ensures var s := Execute(start, moves, limits);
            && Spaced(Stamps(s.calls), limits.ttl)
            && (|Stamps(s.calls)| > 0 ==> (|Stamps(s.calls)| - 1) as real * limits.ttl <= s.clock - start)
  {
    InvariantHolds(start, moves, limits);
    var s := Execute(start, moves, limits);
    hide Stamps, Spaced, Execute, Sound, BuiltBefore;
    var stamps := Stamps(s.calls);
    if stamps != [] {
      SpanWithin(stamps, limits.ttl, start, s.clock);
    }
  }

  /** The cached build is too old to be fresh and young enough to stand in for a failed one. */
  predicate StaleWindow<T>(c: Cache<T>, now: real, limits: Limits) {
    c.Filled? && limits.ttl <= now - c.at < limits.staleTtl
  }

  /** Every answer of every run is a successful build, this call's or an earlier one's, apart from
      the stale mark and the age: an answer from the cache carries the age of its build, and it is
      marked stale exactly when this call's build failed and the cached one is between the two limits
      old. Failures leave the cache alone, and no answer means that nothing recent enough is cached. */
  lemma AnswersAreBuilds<T>(start: real, moves: seq<Move<T>>, limits: Limits, n: nat)
    requires n < |Execute(start, moves, limits).calls|
    ensures var calls := Execute(start, moves, limits).calls;
            var c := calls[n];
            && (c.served.answer.Some? ==>
                  exists view: View<T> :: ((c.built == Some(view) && c.served.refreshed) || BuiltBefore(calls, n, view))
                    && c.served.answer.value == view.(
                         stale := view.stale || (c.built.None? && StaleWindow(c.before, c.now, limits)),
                         cacheAgeSeconds := if c.served.refreshed || c.before.Empty? then view.cacheAgeSeconds
                                            else Round3(c.now - c.before.at)))
            && (c.built.None? ==> c.served.cache == c.before)
            && (c.served.answer.None? ==>
                  && c.built.None? && !Fresh(c.before, c.now, limits)
                  && (c.before.Empty? || c.now - c.before.at >= limits.staleTtl))
  {
    InvariantHolds(start, moves, limits);
    var calls := Execute(start, moves, limits).calls;
    var c := calls[n];
    assert Sound(calls, n, limits);
    if c.served.answer.Some? {
      var view := if c.served.refreshed then c.built.value else c.before.view;
      assert (c.built == Some(view) && c.served.refreshed) || BuiltBefore(calls, n, view);
    }
  }

  /** What every call of every run does, by the age of the cached build on its own clock: younger than the
      TTL, it is handed out and nothing is built; otherwise a build that succeeds is both the answer and
      what is cached, and one that fails is covered up by a cached build younger than the stale limit. */
  lemma CallsByAge<T>(start: real, moves: seq<Move<T>>, limits: Limits, n: nat)
    requires n < |Execute(start, moves, limits).calls|
    ensures var c := Execute(start, moves, limits).calls[n];
            if c.before.Filled? && c.now - c.before.at < limits.ttl then
              && !c.served.refreshed && c.served.cache == c.before
              && c.served.answer == Some(c.before.view.(cacheAgeSeconds := Round3(c.now - c.before.at)))
            else if c.built.Some? then
              c.served.refreshed && c.served.answer == c.built && c.served.cache == Filled(c.built.value, c.now)
            else
              && !c.served.refreshed && c.served.cache == c.before
              && (c.served.answer.Some? <==> c.before.Filled? && c.now - c.before.at < limits.staleTtl)
              && (c.served.answer.Some? ==>
                    c.served.answer.value
                    == c.before.view.(stale := true, cacheAgeSeconds := Round3(c.now - c.before.at)))
  {
    hide Execute;
    InvariantHolds(start, moves, limits);
    assert Sound(Execute(start, moves, limits).calls, n, limits);
  }

  /** A call refreshes the cache exactly when its build succeeds and nothing cached is younger than the TTL;
      so no build that succeeds after the TTL is thrown away, and none is made before. */
  lemma RefreshedIff<T>(start: real, moves: seq<Move<T>>, limits: Limits, n: nat)
    requires n < |Execute(start, moves, limits).calls|
    ensures var c := Execute(start, moves, limits).calls[n];
            c.served.refreshed <==> c.built.Some? && (c.before.Empty? || c.now - c.before.at >= limits.ttl)
  {
    hide Execute;
    CallsByAge(start, moves, limits, n);
  }

  /** What a call finds is what the call before it left, and the first call finds nothing. */
  lemma {:induction false} CallsAreLinked<T>(start: real, moves: seq<Move<T>>, limits: Limits)
    ensures var s := Execute(start, moves, limits);
            && (forall n | 0 < n < |s.calls| :: s.calls[n].before == s.calls[n - 1].served.cache)
            && (if s.calls == [] then s.cache.Empty?
                else s.calls[0].before.Empty? && s.cache == s.calls[|s.calls| - 1].served.cache)
  {
    hide Serve;
    if moves == [] {
    } else {
      CallsAreLinked(start, moves[..|moves| - 1], limits);
    }
  }

  /** An ordinary poll: the TTL has passed, so the new build is served and cached. */
  lemma LatePollRebuilds(old': View<int>, new': View<int>)
    ensures Serve(Filled(old', 0.0), 30.0, Some(new'), Limits(15.0, 60.0)) == Served(Filled(new', 30.0), Some(new'), true)
    ensures Serve(Filled(old', 0.0), 15.0, None, Limits(15.0, 60.0)).answer
            == Some(old'.(stale := true, cacheAgeSeconds := 15.0))
    ensures Serve(Filled(old', 0.0), 60.0, None, Limits(15.0, 60.0)) == Served(Filled(old', 0.0), None, false)
  {
    assert Round3(15.0) == 15.0;
  }

  /** The age is measured from clock readings taken before the lock, so a caller that read the clock
      first and was served second reports a negative age. */
  lemma AgeCanBeNegative(view: View<int>)
    requires view.cacheAgeSeconds == 0.0
    ensures exists moves: seq<Move<int>> ::
              var calls := Execute(0.0, moves, Limits(15.0, 60.0)).calls;
              |calls| == 2 && calls[1].served.answer.Some? && calls[1].served.answer.value.cacheAgeSeconds < 0.0
  {
    var limits := Limits(15.0, 60.0);
    var m1: seq<Move<int>> := [] + [ReadClock(0)];
    var m2 := m1 + [Tick(1.0)];
    var m3 := m2 + [ReadClock(1)];
    var m4 := m3 + [TakeLock(1, Some(view))];
    var m5 := m4 + [TakeLock(0, None)];
    Extend<int>(0.0, [], ReadClock(0), limits);
    Extend(0.0, m1, Tick(1.0), limits);
    Extend(0.0, m2, ReadClock(1), limits);
    Extend(0.0, m3, TakeLock(1, Some(view)), limits);
    Extend(0.0, m4, TakeLock(0, None), limits);
    assert Execute(0.0, m3, limits).waiting == map[0 := 0.0, 1 := 1.0];
    assert Execute(0.0, m4, limits).cache == Filled(view, 1.0);
    assert Execute(0.0, m4, limits).waiting[0] == 0.0;
    assert HalfEven(-1000.0) as real <= -999.5;
    assert |Execute(0.0, m5, limits).calls| == 2;
  }

  lemma Extend<T>(clock: real, moves: seq<Move<T>>, m: Move<T>, limits: Limits)
    ensures Execute(clock, moves + [m], limits) == Do(Execute(clock, moves, limits), m, limits)
  {
  }

  /** The call of a run and the move it came from: builds are those of the moves. */
  lemma {:induction false} CallsComeFromMoves<T>(start: real, moves: seq<Move<T>>, limits: Limits, n: nat)
    requires n < |Execute(start, moves, limits).calls|
    ensures exists k :: 0 <= k < |moves| && moves[k].TakeLock? && moves[k].built == Execute(start, moves, limits).calls[n].built
  {
    if moves == [] {
    } else {
      var earlier, last := moves[..|moves| - 1], moves[|moves| - 1];
      var s := Execute(start, earlier, limits);
      if n < |s.calls| {
        CallsComeFromMoves(start, earlier, limits, n);
        var k :| 0 <= k < |earlier| && earlier[k].TakeLock? && earlier[k].built == s.calls[n].built;
        assert moves[k] == earlier[k];
      } else {
        assert last.TakeLock? && last.built == Execute(start, moves, limits).calls[n].built;
      }
    }
  }

  /** Half a millisecond is the rounding of the age. */
  lemma RoundedNegative(x: real)
    ensures Round3(x) < 0.0 <==> x < -0.0005
  {
    assert x * 1000.0 < -0.5 <==> x < -0.0005;
  }

  /** The call is answered from the cache. */
  predicate ServedFromCache<T>(c: Cache<T>, now: real, built: Option<View<T>>, limits: Limits) {
    c.Filled? && (now - c.at < limits.ttl || (built.None? && now - c.at < limits.staleTtl))
  }

  /** An age is reported negative exactly when the call is answered from the cache and the stamp of
      the cached build is more than half a millisecond ahead of the call's own clock reading. With a
      TTL that is not negative, the second condition is enough. */
  lemma NegativeAgeIff<T>(c: Cache<T>, now: real, built: Option<View<T>>, limits: Limits)
    requires built.Some? ==> built.value.cacheAgeSeconds >= 0.0
    ensures var answer := Serve(c, now, built, limits).answer;
            var negative := answer.Some? && answer.value.cacheAgeSeconds < 0.0;
            && (negative <==> ServedFromCache(c, now, built, limits) && now < c.at - 0.0005)
            && (limits.ttl >= 0.0 ==> (negative <==> c.Filled? && now < c.at - 0.0005))
  {
    if c.Filled? {
      RoundedNegative(now - c.at);
    }
  }

  /** The same over runs: the n-th answer has a negative age exactly when it comes from the cache and
      a clock reading was taken before the stamp of the cached build but served after it. */
  lemma NegativeAgeInRunsIff<T>(start: real, moves: seq<Move<T>>, limits: Limits, n: nat)
    requires n < |Execute(start, moves, limits).calls|
    requires forall m | m in moves && m.TakeLock? && m.built.Some? :: m.built.value.cacheAgeSeconds >= 0.0
    ensures var c := Execute(start, moves, limits).calls[n];
            var negative := c.served.answer.Some? && c.served.answer.value.cacheAgeSeconds < 0.0;
            && (negative <==> ServedFromCache(c.before, c.now, c.built, limits) && c.now < c.before.at - 0.0005)
            && (limits.ttl >= 0.0 ==> (negative <==> c.before.Filled? && c.now < c.before.at - 0.0005))
  {
    hide Serve, Execute;
    InvariantHolds(start, moves, limits);
    CallsComeFromMoves(start, moves, limits, n);
    var c := Execute(start, moves, limits).calls[n];
    assert Sound(Execute(start, moves, limits).calls, n, limits);
    NegativeAgeIff(c.before, c.now, c.built, limits);
  }
}
