/**
 The per-user token bucket of archive chat (core/api/chat_gate.go), in exact
 arithmetic: a bucket holds nanoseconds of refill credit, one request costs the
 ten seconds that refill one token, and a full bucket holds two tokens.
 */
module ChatGate {

  import opened Options
  import opened Iteration
  import TokenBucket

  const SECOND := 1_000_000_000
  const TOKEN := 10 * SECOND
  const BURST := 2 * TOKEN
  const IDLE_AFTER := 20 * SECOND
  const PRUNE_EVERY := 60 * SECOND
  const MAX_DURATION := 0x7fff_ffff_ffff_ffff
  const MIN_DURATION := -0x8000_0000_0000_0000

  /** Times are nanoseconds since the zero time. */
  datatype Bucket = Bucket(credit: int, last: int)

  /** What reading an absent key yields: no tokens, last seen at the zero time. */
  const ZERO_BUCKET := Bucket(0, 0)

  datatype Gate = Gate(buckets: map<int, Bucket>, nextPrune: int)

  datatype Answer = Granted | Denied(retryAfter: int)

  datatype Event = Ask(user: int, at: int) | GiveBack(user: int, at: int)

  const NEW_GATE := Gate(map[], 0)

  function Min(a: int, b: int): int {
    if a <= b then a else b
  }

  function Max(a: int, b: int): int {
    if a >= b then a else b
  }

  /** The difference of two times saturates at the ends of the duration type. */
  function Sub(a: int, b: int): int {
    Max(MIN_DURATION, Min(MAX_DURATION, a - b))
  }

  function Refill(b: Bucket, now: int, extra: int): Bucket {
    Bucket(Min(BURST, b.credit + Sub(now, b.last) + extra), now)
  }

  function Take(b: Bucket, now: int): (Bucket, Answer) {
    var full := Refill(b, now, 0);
    if full.credit < TOKEN then (full, Denied(TOKEN - full.credit + SECOND))
    else (full.(credit := full.credit - TOKEN), Granted)
  }

  function Prune(g: Gate, now: int): Gate {
    if g.nextPrune != 0 && now < g.nextPrune then g
    else Gate(map u | u in g.buckets && Sub(now, g.buckets[u].last) < IDLE_AFTER :: g.buckets[u], now + PRUNE_EVERY)
  }

  function BucketOf(buckets: map<int, Bucket>, user: int, absent: Bucket): Bucket {
    if user in buckets then buckets[user] else absent
  }

  function AfterAsk(g: Gate, user: int, now: int): (Gate, Answer) {
    var p := Prune(g, now);
    var (b, answer) := Take(BucketOf(p.buckets, user, Bucket(BURST, now)), now);
    (p.(buckets := p.buckets[user := b]), answer)
  }

  function AfterRefund(g: Gate, user: int, now: int): Gate {
    g.(buckets := g.buckets[user := Refill(BucketOf(g.buckets, user, ZERO_BUCKET), now, TOKEN)])
  }

  /** The same gate without pruning. */
  function PlainAfterAsk(m: map<int, Bucket>, user: int, now: int): (map<int, Bucket>, Answer) {
    var (b, answer) := Take(BucketOf(m, user, Bucket(BURST, now)), now);
    (m[user := b], answer)
  }

  function PlainAfterRefund(m: map<int, Bucket>, user: int, now: int): map<int, Bucket> {
    m[user := Refill(BucketOf(m, user, ZERO_BUCKET), now, TOKEN)]
  }

  function After(g: Gate, e: Event): Gate {
    match e
    case Ask(u, at) => AfterAsk(g, u, at).0
    case GiveBack(u, at) => AfterRefund(g, u, at)
  }

  function AnswerTo(g: Gate, e: Event): Option<Answer> {
    match e
    case Ask(u, at) => Some(AfterAsk(g, u, at).1)
    case GiveBack(_, _) => None
  }

  function PlainAfter(m: map<int, Bucket>, e: Event): map<int, Bucket> {
    match e
    case Ask(u, at) => PlainAfterAsk(m, u, at).0
    case GiveBack(u, at) => PlainAfterRefund(m, u, at)
  }

  function PlainAnswerTo(m: map<int, Bucket>, e: Event): Option<Answer> {
    match e
    case Ask(u, at) => Some(PlainAfterAsk(m, u, at).1)
    case GiveBack(_, _) => None
  }

  function State(g: Gate, events: seq<Event>): Gate {
    if events == [] then g else After(State(g, events[..|events| - 1]), events[|events| - 1])
  }

  function PlainState(m: map<int, Bucket>, events: seq<Event>): map<int, Bucket> {
    if events == [] then m else PlainAfter(PlainState(m, events[..|events| - 1]), events[|events| - 1])
  }

  /** Times never decrease, and the clock has left the first seconds of year one. */
  predicate Ordered(events: seq<Event>) {
    && (forall i, j :: 0 <= i <= j < |events| ==> events[i].at <= events[j].at)
    && (forall i :: 0 <= i < |events| ==> IDLE_AFTER <= events[i].at)
  }

  predicate Sound(m: map<int, Bucket>, now: int) {
    forall u :: u in m ==> 0 <= m[u].credit <= BURST && m[u].last <= now
  }

  // ---------- pruning ----------

  /** Users the pruned gate has forgotten have been idle long enough to be full again. */
  predicate Alike(g: Gate, m: map<int, Bucket>, now: int) {
    && Sound(m, now)
    && (forall u :: u in g.buckets ==> u in m && m[u] == g.buckets[u])
    && (forall u :: u in m && u !in g.buckets ==> m[u].last + IDLE_AFTER <= now)
  }

  lemma AlikeStep(g: Gate, m: map<int, Bucket>, now: int, e: Event)
    requires Alike(g, m, now) && now <= e.at && IDLE_AFTER <= e.at
    ensures Alike(After(g, e), PlainAfter(m, e), e.at)
    ensures AnswerTo(g, e) == PlainAnswerTo(m, e)
  {
    var g' := if e.Ask? then Prune(g, e.at) else g;
    assert Alike(g', m, e.at);
  }

  lemma {:induction false} AlikeRun(events: seq<Event>)
    requires Ordered(events)
    ensures Alike(State(NEW_GATE, events), PlainState(map[], events), if events == [] then IDLE_AFTER else events[|events| - 1].at)
  {
    if events != [] {
      var front := events[..|events| - 1];
      AlikeRun(front);
      AlikeStep(State(NEW_GATE, front), PlainState(map[], front),
                if front == [] then IDLE_AFTER else front[|front| - 1].at, events[|events| - 1]);
    }
  }

  /**
   A gate that prunes and one that never does give the same answers, with the same retry delays, to
   every ordered sequence of requests and refunds: also when a refund finds its bucket pruned and
   reads the zero value.
   */
  lemma PruningIsUnobservable(events: seq<Event>, next: Event)
    requires Ordered(events + [next])
    ensures AnswerTo(State(NEW_GATE, events), next) == PlainAnswerTo(PlainState(map[], events), next)
  {
    assert forall i :: 0 <= i < |events| ==> (events + [next])[i] == events[i];
    assert (events + [next])[|events|] == next;
    AlikeRun(events);
    AlikeStep(State(NEW_GATE, events), PlainState(map[], events),
              if events == [] then IDLE_AFTER else events[|events| - 1].at, next);
  }

  // ---------- readings out of order ----------

  /** Readings are taken before the lock, so a later request may carry one up to `d` earlier. */
  predicate NearlyOrdered(events: seq<Event>, d: nat) {
    && (forall i, j :: 0 <= i <= j < |events| ==> events[i].at <= events[j].at + d)
    && (forall i :: 0 <= i < |events| ==> IDLE_AFTER <= events[i].at)
  }

  /** No run within that disorder tells the pruning gate from one that never prunes. */
  ghost predicate PruningHidden(d: nat) {
    forall events: seq<Event>, next: Event :: NearlyOrdered(events + [next], d) ==>
      AnswerTo(State(NEW_GATE, events), next) == PlainAnswerTo(PlainState(map[], events), next)
  }

  const EARLY := Ask(3, 60 * SECOND)
  const SPEND := Ask(1, 100 * SECOND)
  const SWEEP := Ask(2, 120 * SECOND)

  /** User 1 spends two tokens; 20 s later another user's request prunes the bucket; then user 1 asks with a late reading. */
  function Telltale(d: nat): seq<Event> {
    [EARLY] + [SPEND] + [SPEND] + [SWEEP] + [Ask(1, 120 * SECOND - d)]
  }

  lemma BothSnoc(g: Gate, m: map<int, Bucket>, events: seq<Event>, e: Event)
    ensures State(g, events + [e]) == After(State(g, events), e)
    ensures PlainState(m, events + [e]) == PlainAfter(PlainState(m, events), e)
  {
    assert (events + [e])[..|events|] == events;
  }

  lemma BeforeTheLateReading()
    ensures var events := [EARLY] + [SPEND] + [SPEND] + [SWEEP];
      && 1 !in State(NEW_GATE, events).buckets && State(NEW_GATE, events).nextPrune == 180 * SECOND
      && 1 in PlainState(map[], events) && PlainState(map[], events)[1] == Bucket(0, 100 * SECOND)
  {
    var g1, m1 := After(NEW_GATE, EARLY), PlainAfter(map[], EARLY);
    var g2, m2 := After(g1, SPEND), PlainAfter(m1, SPEND);
    var g3, m3 := After(g2, SPEND), PlainAfter(m2, SPEND);
    BothSnoc(NEW_GATE, map[], [], EARLY);
    assert [] + [EARLY] == [EARLY];
    BothSnoc(NEW_GATE, map[], [EARLY], SPEND);
    BothSnoc(NEW_GATE, map[], [EARLY] + [SPEND], SPEND);
    BothSnoc(NEW_GATE, map[], [EARLY] + [SPEND] + [SPEND], SWEEP);
    assert g1.nextPrune == 120 * SECOND;
    assert g3.buckets[1] == Bucket(0, 100 * SECOND) && m3[1] == Bucket(0, 100 * SECOND) && g3.nextPrune == 120 * SECOND;
  }

  lemma TelltaleTells(d: nat)
    requires 0 < d <= TOKEN
    ensures var next := Ask(1, 120 * SECOND - d);
      && NearlyOrdered(Telltale(d) + [next], d)
      && AnswerTo(State(NEW_GATE, Telltale(d)), next) == Some(Granted)
      && PlainAnswerTo(PlainState(map[], Telltale(d)), next) == Some(Denied(d + SECOND))
  {
    var next := Ask(1, 120 * SECOND - d);
    BeforeTheLateReading();
    BothSnoc(NEW_GATE, map[], [EARLY] + [SPEND] + [SPEND] + [SWEEP], next);
    assert Telltale(d) + [next] == [EARLY, SPEND, SPEND, SWEEP, next, next];
  }

  /** Exactly when readings are never out of order at all is pruning hidden: no tolerance, however small, will do. */
  lemma PruningHiddenExactly(d: nat)
    ensures PruningHidden(d) <==> d == 0
  {
    if d == 0 {
      forall events: seq<Event>, next: Event | NearlyOrdered(events + [next], d)
        ensures AnswerTo(State(NEW_GATE, events), next) == PlainAnswerTo(PlainState(map[], events), next)
      {
        PruningIsUnobservable(events, next);
      }
    } else {
      var lag := if d <= TOKEN then d else TOKEN;
      TelltaleTells(lag);
      assert NearlyOrdered(Telltale(lag) + [Ask(1, 120 * SECOND - lag)], d);
    }
  }

  // ---------- buckets under readings out of order ----------

  /** Disorder below 292 years, where time differences do not saturate. */
  const MAX_DISORDER := MAX_DURATION - BURST

  /** The latest reading so far. */
  function Peak(peak: int, events: seq<Event>): int {
    if events == [] then peak else Max(Peak(peak, events[..|events| - 1]), events[|events| - 1].at)
  }

  /** A bucket's credit may be overdrawn by the disorder, and counted from its last reading never runs past the latest one. */
  predicate TameBucket(b: Bucket, peak: int, d: nat) {
    0 <= b.credit + d && b.credit <= BURST && b.last <= peak && 0 <= b.credit - b.last + peak
  }

  predicate Tame(g: Gate, peak: int, d: nat) {
    forall u :: u in g.buckets ==> TameBucket(g.buckets[u], peak, d)
  }

  /** The next event's reading, at most `d` behind the latest. */
  predicate InTouch(peak: int, d: nat, e: Event) {
    peak - d <= e.at && IDLE_AFTER <= e.at && d <= MAX_DISORDER
  }

  lemma RefillExact(b: Bucket, peak: int, d: nat, now: int, extra: nat)
    requires TameBucket(b, peak, d) && peak - d <= now && d <= MAX_DISORDER
    ensures Refill(b, now, extra) == Bucket(Min(BURST, b.credit + (now - b.last) + extra), now)
    ensures TameBucket(Refill(b, now, extra), Max(peak, now), d)
  {
  }

  lemma TameStep(g: Gate, peak: int, d: nat, e: Event)
    requires Tame(g, peak, d) && InTouch(peak, d, e)
    ensures Tame(After(g, e), Max(peak, e.at), d)
  {
    if e.user in g.buckets {
      RefillExact(g.buckets[e.user], peak, d, e.at, if e.Ask? then 0 else TOKEN);
    }
  }

  /** Every event's reading is at most `d` behind the latest before it. */
  predicate Follows(peak: int, d: nat, events: seq<Event>) {
    events == [] ||
    (Follows(peak, d, events[..|events| - 1]) && InTouch(Peak(peak, events[..|events| - 1]), d, events[|events| - 1]))
  }

  lemma {:induction false} PeakBelow(peak: int, events: seq<Event>, bound: int)
    requires peak <= bound && forall i :: 0 <= i < |events| ==> events[i].at <= bound
    ensures Peak(peak, events) <= bound
  {
    if events != [] {
      PeakBelow(peak, events[..|events| - 1], bound);
    }
  }

  lemma {:induction false} FollowsConcat(peak: int, d: nat, a: seq<Event>, b: seq<Event>)
    ensures Peak(peak, a + b) == Peak(Peak(peak, a), b)
    ensures Follows(peak, d, a + b) <==> Follows(peak, d, a) && Follows(Peak(peak, a), d, b)
    decreases |b|
  {
    if b == [] {
      assert a + b == a;
    } else {
      FollowsConcat(peak, d, a, b[..|b| - 1]);
      assert (a + b)[..|a + b| - 1] == a + b[..|b| - 1];
    }
  }

  lemma {:induction false} NearlyOrderedFollows(events: seq<Event>, d: nat)
    requires NearlyOrdered(events, d) && d <= MAX_DISORDER
    ensures Follows(IDLE_AFTER, d, events)
  {
    if events != [] {
      var front, last := events[..|events| - 1], events[|events| - 1];
      NearlyOrderedFollows(front, d);
      PeakBelow(IDLE_AFTER, front, last.at + d);
    }
  }

  lemma StateSnoc(g: Gate, events: seq<Event>)
    requires events != []
    ensures State(g, events) == After(State(g, events[..|events| - 1]), events[|events| - 1])
  {
  }

  lemma {:induction false} TameRun(g: Gate, peak: int, d: nat, events: seq<Event>)
    requires Tame(g, peak, d) && Follows(peak, d, events)
    ensures Tame(State(g, events), Peak(peak, events), d)
  {
    if events != [] {
      var front := events[..|events| - 1];
      TameRun(g, peak, d, front);
      TameStep(State(g, front), Peak(peak, front), d, events[|events| - 1]);
      StateSnoc(g, events);
    }
  }

  /** After any run within the disorder, the gate is tame and what comes next follows on. */
  lemma Ready(before: seq<Event>, after: seq<Event>, d: nat)
    requires NearlyOrdered(before + after, d) && d <= MAX_DISORDER
    ensures Tame(State(NEW_GATE, before), Peak(IDLE_AFTER, before), d)
    ensures Follows(Peak(IDLE_AFTER, before), d, after)
  {
    NearlyOrderedFollows(before + after, d);
    FollowsConcat(IDLE_AFTER, d, before, after);
    TameRun(NEW_GATE, IDLE_AFTER, d, before);
  }

  // ---------- rate ----------

  /** Plus one for an admission of `user`, minus one for a refund. */
  function Count(g: Gate, user: int, e: Event): int {
    if e.user != user then 0
    else if e.GiveBack? then -1
    else if AnswerTo(g, e) == Some(Granted) then 1
    else 0
  }

  /** Admissions minus refunds of `user` among `events`, starting from gate `g`. */
  function NetAdmissions(g: Gate, user: int, events: seq<Event>): int {
    if events == [] then 0
    else
      var front := events[..|events| - 1];
      NetAdmissions(g, user, front) + Count(State(g, front), user, events[|events| - 1])
  }

  /** This event's pruning drops the user's bucket. */
  predicate Dropped(g: Gate, user: int, e: Event) {
    e.Ask? && user in g.buckets && user !in Prune(g, e.at).buckets
  }

  /** How often the user's bucket is dropped among `events`, times `each`. */
  function Drops(g: Gate, user: int, events: seq<Event>, each: nat): nat {
    if events == [] then 0
    else
      var front := events[..|events| - 1];
      Drops(g, user, front, each) + (if Dropped(State(g, front), user, events[|events| - 1]) then each else 0)
  }

  lemma {:induction false} DropsOfNothing(g: Gate, user: int, events: seq<Event>)
    ensures Drops(g, user, events, 0) == 0
  {
    if events != [] {
      DropsOfNothing(g, user, events[..|events| - 1]);
    }
  }

  /** The credit of `user`, counted from the zero time: what a window that begins at `lo` has to spend. */
  function Funds(g: Gate, user: int, lo: int, peak: int, d: nat): int {
    Min(BURST - lo,
        if user in g.buckets then g.buckets[user].credit - g.buckets[user].last else BURST - peak + d)
  }

  /** Pruning gives away at most twice the disorder, and only when it drops the bucket. */
  lemma PruneFunds(g: Gate, peak: int, d: nat, lo: int, user: int, e: Event)
    requires Tame(g, peak, d) && InTouch(peak, d, e) && e.Ask?
    ensures Funds(Prune(g, e.at), user, lo, Max(peak, e.at), d) <= Funds(g, user, lo, peak, d) + (if Dropped(g, user, e) then 2 * d else 0)
  {
  }

  /** Once pruned: an admission costs its token, a refund brings at most one. */
  lemma TouchFunds(p: Gate, peak: int, d: nat, lo: int, user: int, e: Event, b: Bucket)
    requires Tame(p, peak, d) && InTouch(peak, d, e) && lo <= e.at && e.user == user
    requires b == Refill(BucketOf(p.buckets, user, if e.Ask? then Bucket(BURST, e.at) else ZERO_BUCKET), e.at, if e.Ask? then 0 else TOKEN)
    ensures Min(BURST - lo, b.credit - b.last) <= Funds(p, user, lo, Max(peak, e.at), d) + (if e.Ask? then 0 else TOKEN)
  {
    if user in p.buckets {
      RefillExact(p.buckets[user], peak, d, e.at, if e.Ask? then 0 else TOKEN);
    }
  }

  lemma PruneTame(g: Gate, peak: int, d: nat, now: int)
    requires Tame(g, peak, d)
    ensures Tame(Prune(g, now), peak, d)
  {
  }

  /** An admission costs its token, a refund brings at most one, and nothing else adds but a drop. */
  lemma EventFunds(g: Gate, peak: int, d: nat, lo: int, user: int, e: Event)
    requires Tame(g, peak, d) && InTouch(peak, d, e) && lo <= e.at
    ensures Funds(After(g, e), user, lo, Max(peak, e.at), d) + TOKEN * Count(g, user, e)
         <= Funds(g, user, lo, peak, d) + (if Dropped(g, user, e) then 2 * d else 0)
  {
    var p := if e.Ask? then Prune(g, e.at) else g;
    if e.Ask? {
      PruneFunds(g, peak, d, lo, user, e);
      PruneTame(g, peak, d, e.at);
    }
    assert Funds(p, user, lo, Max(peak, e.at), d) <= Funds(g, user, lo, peak, d) + (if Dropped(g, user, e) then 2 * d else 0);
    if e.user == user {
      var b := Refill(BucketOf(p.buckets, user, if e.Ask? then Bucket(BURST, e.at) else ZERO_BUCKET), e.at, if e.Ask? then 0 else TOKEN);
      TouchFunds(p, peak, d, lo, user, e, b);
    }
  }

  /** After an admission there is no debt beyond the window's end, and none arises later. */
  lemma EventFloor(g: Gate, peak: int, d: nat, lo: int, hi: int, user: int, e: Event)
    requires Tame(g, peak, d) && InTouch(peak, d, e) && lo <= e.at <= hi
    requires Count(g, user, e) == 1 || Funds(g, user, lo, peak, d) >= -hi
    ensures Funds(After(g, e), user, lo, Max(peak, e.at), d) >= -hi
  {
    if e.user == user && user in g.buckets {
      RefillExact(g.buckets[user], peak, d, e.at, if e.Ask? then 0 else TOKEN);
    }
  }

  predicate ReadWithin(events: seq<Event>, lo: int, hi: int) {
    forall k :: 0 <= k < |events| ==> lo <= events[k].at <= hi
  }

  /** What a window has spent so far fits its funds, and leaves no debt beyond its end. */
  predicate Covered(g: Gate, peak: int, d: nat, lo: int, hi: int, user: int, net: int, budget: int) {
    var left := Funds(g, user, lo, peak, d);
    TOKEN * net + left <= budget && (net <= 0 || left >= -hi)
  }

  lemma CoveredStep(g: Gate, g': Gate, peak: int, peak': int, d: nat, lo: int, hi: int, user: int, e: Event,
                    net: int, net': int, budget: int, budget': int)
    requires Tame(g, peak, d) && InTouch(peak, d, e) && lo <= e.at <= hi && Covered(g, peak, d, lo, hi, user, net, budget)
    requires g' == After(g, e) && peak' == Max(peak, e.at) && net' == net + Count(g, user, e)
    requires budget' == budget + if Dropped(g, user, e) then 2 * d else 0
    ensures Covered(g', peak', d, lo, hi, user, net', budget')
  {
    EventFunds(g, peak, d, lo, user, e);
    if net' > 0 {
      EventFloor(g, peak, d, lo, hi, user, e);
    }
  }

  lemma Unroll(g: Gate, user: int, events: seq<Event>, each: nat)
    requires events != []
    ensures var front, e := events[..|events| - 1], events[|events| - 1];
      && NetAdmissions(g, user, events) == NetAdmissions(g, user, front) + Count(State(g, front), user, e)
      && Drops(g, user, events, each) == Drops(g, user, front, each) + if Dropped(State(g, front), user, e) then each else 0
  {
  }

  lemma {:induction false} WindowCovered(g: Gate, peak: int, d: nat, window: seq<Event>, lo: int, hi: int, user: int)
    requires Tame(g, peak, d) && Follows(peak, d, window) && ReadWithin(window, lo, hi)
    ensures Covered(State(g, window), Peak(peak, window), d, lo, hi, user, NetAdmissions(g, user, window),
                    Funds(g, user, lo, peak, d) + Drops(g, user, window, 2 * d))
    decreases |window|
  {
    if window != [] {
      var front, e := window[..|window| - 1], window[|window| - 1];
      WindowCovered(g, peak, d, front, lo, hi, user);
      TameRun(g, peak, d, front);
      Unroll(g, user, window, 2 * d);
      StateSnoc(g, window);
      var funds := Funds(g, user, lo, peak, d);
      CoveredStep(State(g, front), State(g, window), Peak(peak, front), Peak(peak, window), d, lo, hi, user, e,
                  NetAdmissions(g, user, front), NetAdmissions(g, user, window),
                  funds + Drops(g, user, front, 2 * d), funds + Drops(g, user, window, 2 * d));
    }
  }

  /**
   The rate limit, whatever the clock: in every window of every run whose readings are out of
   order by at most `d`, a user's admissions minus refunds cost at most the burst, plus what
   the span of the window's readings refills, plus twice the disorder for each time the
   user's bucket is pruned in it.
   */
  lemma RateLimit(before: seq<Event>, window: seq<Event>, d: nat, lo: int, hi: int, user: int)
    requires NearlyOrdered(before + window, d) && d <= MAX_DISORDER && lo <= hi && ReadWithin(window, lo, hi)
    ensures var g := State(NEW_GATE, before);
      TOKEN * NetAdmissions(g, user, window) <= BURST + (hi - lo) + Drops(g, user, window, 2 * d)
  {
    Ready(before, window, d);
    WindowCovered(State(NEW_GATE, before), Peak(IDLE_AFTER, before), d, window, lo, hi, user);
    CoveredMeans(State(NEW_GATE, before), State(State(NEW_GATE, before), window), Peak(IDLE_AFTER, before),
                 Peak(Peak(IDLE_AFTER, before), window), d, lo, hi, user,
                 NetAdmissions(State(NEW_GATE, before), user, window), Drops(State(NEW_GATE, before), user, window, 2 * d));
  }

  lemma CoveredMeans(g: Gate, g': Gate, peak: int, peak': int, d: nat, lo: int, hi: int, user: int, net: int, drops: nat)
    requires lo <= hi && Covered(g', peak', d, lo, hi, user, net, Funds(g, user, lo, peak, d) + drops)
    ensures TOKEN * net <= BURST + (hi - lo) + drops
  {
  }

  /** Without a term for pruning: the bound the token bucket is meant to keep. */
  ghost predicate RateHolds(d: nat) {
    forall before: seq<Event>, window: seq<Event>, lo: int, hi: int, user: int ::
      NearlyOrdered(before + window, d) && lo <= hi && ReadWithin(window, lo, hi) ==>
        TOKEN * NetAdmissions(State(NEW_GATE, before), user, window) <= BURST + (hi - lo)
  }

  /** The telltale run, 20 s longer: user 1 is admitted six times. */
  function SixAdmissions(d: nat): seq<Event> {
    [SPEND] + [SPEND] + [SWEEP] + [Ask(1, 120 * SECOND - d)] + [Ask(1, 120 * SECOND - d)]
    + [Ask(1, 140 * SECOND - d)] + [Ask(1, 140 * SECOND - d)]
  }

  lemma NetSnoc(g: Gate, user: int, events: seq<Event>, e: Event)
    ensures NetAdmissions(g, user, events + [e]) == NetAdmissions(g, user, events) + Count(State(g, events), user, e)
    ensures State(g, events + [e]) == After(State(g, events), e)
  {
    assert (events + [e])[..|events|] == events;
  }

  lemma FirstFour(g: Gate)
    requires g == After(NEW_GATE, EARLY)
    ensures var events := [SPEND] + [SPEND] + [SWEEP];
      && NetAdmissions(g, 1, events) == 2 && 1 !in State(g, events).buckets && State(g, events).nextPrune == 180 * SECOND
  {
    var g1 := After(g, SPEND);
    var g2 := After(g1, SPEND);
    NetSnoc(g, 1, [], SPEND);
    assert [] + [SPEND] == [SPEND];
    NetSnoc(g, 1, [SPEND], SPEND);
    NetSnoc(g, 1, [SPEND] + [SPEND], SWEEP);
    assert g1.buckets[1] == Bucket(TOKEN, 100 * SECOND) && g2.buckets[1] == Bucket(0, 100 * SECOND);
  }

  lemma NextTwo(g: Gate, events: seq<Event>, at: int)
    requires 100 * SECOND <= at < State(g, events).nextPrune
    requires 1 in State(g, events).buckets ==> State(g, events).buckets[1] == Bucket(0, at - 20 * SECOND)
    ensures var later := events + [Ask(1, at)] + [Ask(1, at)];
      && NetAdmissions(g, 1, later) == NetAdmissions(g, 1, events) + 2
      && State(g, later).nextPrune == State(g, events).nextPrune
      && 1 in State(g, later).buckets && State(g, later).buckets[1] == Bucket(0, at)
  {
    var ask := Ask(1, at);
    NetSnoc(g, 1, events, ask);
    NetSnoc(g, 1, events + [ask], ask);
    assert After(State(g, events), ask).buckets[1] == Bucket(TOKEN, at);
  }

  lemma SixInTime(d: nat)
    requires 0 < d <= TOKEN
    ensures NearlyOrdered([EARLY] + SixAdmissions(d), d)
    ensures ReadWithin(SixAdmissions(d), 100 * SECOND, 140 * SECOND - d)
  {
    var a, b := Ask(1, 120 * SECOND - d), Ask(1, 140 * SECOND - d);
    assert SixAdmissions(d) == [SPEND, SPEND, SWEEP, a, a, b, b];
  }

  lemma SixIsTooMany(d: nat)
    requires 0 < d <= TOKEN
    ensures NetAdmissions(State(NEW_GATE, [EARLY]), 1, SixAdmissions(d)) == 6
  {
    EarlyOnly();
    SixFrom(State(NEW_GATE, [EARLY]), d);
  }

  lemma EarlyOnly()
    ensures State(NEW_GATE, [EARLY]) == After(NEW_GATE, EARLY)
  {
    BothSnoc(NEW_GATE, map[], [], EARLY);
    assert [] + [EARLY] == [EARLY];
  }

  lemma SixFrom(g: Gate, d: nat)
    requires 0 < d <= TOKEN && g == After(NEW_GATE, EARLY)
    ensures NetAdmissions(g, 1, SixAdmissions(d)) == 6
  {
    FirstFour(g);
    var three := [SPEND] + [SPEND] + [SWEEP];
    NextTwo(g, three, 120 * SECOND - d);
    NextTwo(g, three + [Ask(1, 120 * SECOND - d)] + [Ask(1, 120 * SECOND - d)], 140 * SECOND - d);
  }

  /** The plain bound holds exactly when readings are never out of order. */
  lemma RateHoldsExactly(d: nat)
    ensures RateHolds(d) <==> d == 0
  {
    if d == 0 {
      forall before: seq<Event>, window: seq<Event>, lo: int, hi: int, user: int
        | NearlyOrdered(before + window, d) && lo <= hi && ReadWithin(window, lo, hi)
        ensures TOKEN * NetAdmissions(State(NEW_GATE, before), user, window) <= BURST + (hi - lo)
      {
        RateLimit(before, window, d, lo, hi, user);
        DropsOfNothing(State(NEW_GATE, before), user, window);
      }
    } else {
      var lag := if d <= TOKEN then d else TOKEN;
      SixInTime(lag);
      SixIsTooMany(lag);
      assert NearlyOrdered([EARLY] + SixAdmissions(lag), d);
    }
  }

  lemma {:induction false} StateConcat(g: Gate, a: seq<Event>, b: seq<Event>)
    ensures State(g, a + b) == State(State(g, a), b)
    decreases |b|
  {
    if b == [] {
      assert a + b == a;
    } else {
      StateConcat(g, a, b[..|b| - 1]);
      assert (a + b)[..|a + b| - 1] == a + b[..|b| - 1];
    }
  }

  // ---------- Retry-After ----------

  /** The header value: the delay, which is positive, rounded half up to whole seconds, at least one. */
  function RetryAfterSeconds(d: int): int {
    Max(1, (d + SECOND / 2) / SECOND)
  }

  lemma RoundingCoversTheShortfall(missing: int)
    requires 0 < missing
    ensures RetryAfterSeconds(missing + SECOND) * SECOND >= missing
  {
  }

  /** A request of `user` with reading `at` would be granted, whether or not its pruning drops the bucket. */
  predicate Waiting(g: Gate, user: int, at: int) {
    user in g.buckets ==> g.buckets[user].credit + (at - g.buckets[user].last) >= TOKEN
  }

  /** Events that grant `user` nothing leave that so, if they are read no later. */
  lemma WaitingStays(g: Gate, peak: int, d: nat, user: int, e: Event, later: int)
    requires Tame(g, peak, d) && InTouch(peak, d, e) && e.at <= later && Waiting(g, user, later)
    requires e.user == user ==> AnswerTo(g, e) != Some(Granted)
    ensures Waiting(After(g, e), user, later)
  {
    if e.user == user && user in g.buckets {
      RefillExact(g.buckets[user], peak, d, e.at, if e.Ask? then 0 else TOKEN);
    }
  }

  lemma WaitingIsGranted(g: Gate, peak: int, d: nat, user: int, at: int)
    requires Tame(g, peak, d) && InTouch(peak, d, Ask(user, at)) && Waiting(g, user, at)
    ensures AnswerTo(g, Ask(user, at)) == Some(Granted)
  {
    if user in g.buckets {
      RefillExact(g.buckets[user], peak, d, at, 0);
    }
  }

  lemma RefusalAnnounces(g: Gate, peak: int, d: nat, user: int, at: int, later: int)
    requires Tame(g, peak, d) && InTouch(peak, d, Ask(user, at)) && AnswerTo(g, Ask(user, at)).value.Denied?
    ensures AnswerTo(g, Ask(user, at)).value.retryAfter > SECOND
    ensures later >= at + RetryAfterSeconds(AnswerTo(g, Ask(user, at)).value.retryAfter) * SECOND ==>
      Waiting(After(g, Ask(user, at)), user, later)
  {
    RoundingCoversTheShortfall(AnswerTo(g, Ask(user, at)).value.retryAfter - SECOND);
  }

  /** None of the user's requests among `events`, from gate g on, is granted, and none is read after `later`. */
  ghost predicate Fruitless(g: Gate, user: int, events: seq<Event>, later: int) {
    forall k :: 0 <= k < |events| ==>
      && events[k].at <= later
      && (events[k].user == user ==> AnswerTo(State(g, events[..k]), events[k]) != Some(Granted))
  }

  lemma FruitlessPrefix(g: Gate, user: int, events: seq<Event>, later: int)
    requires Fruitless(g, user, events, later) && events != []
    ensures Fruitless(g, user, events[..|events| - 1], later)
  {
    var front := events[..|events| - 1];
    forall k | 0 <= k < |front| ensures front[..k] == events[..k] && front[k] == events[k] {}
  }

  lemma {:induction false} WaitingLasts(g: Gate, peak: int, d: nat, meanwhile: seq<Event>, user: int, later: int)
    requires Tame(g, peak, d) && Follows(peak, d, meanwhile)
    requires Waiting(g, user, later) && Fruitless(g, user, meanwhile, later)
    ensures Waiting(State(g, meanwhile), user, later)
    decreases |meanwhile|
  {
    if meanwhile != [] {
      var front, e := meanwhile[..|meanwhile| - 1], meanwhile[|meanwhile| - 1];
      FruitlessPrefix(g, user, meanwhile, later);
      WaitingLasts(g, peak, d, front, user, later);
      TameRun(g, peak, d, front);
      WaitingStays(State(g, front), Peak(peak, front), d, user, e, later);
      StateSnoc(g, meanwhile);
    }
  }

  /**
   A refused caller who waits the announced seconds is admitted, whatever others do meanwhile
   and however often the caller is refused or refunded in between, as long as none of their
   own requests was granted. Readings may come out of order.
   */
  lemma WaitingIsRewarded(events: seq<Event>, user: int, at: int, meanwhile: seq<Event>, later: int, d: nat)
    requires NearlyOrdered(events + [Ask(user, at)] + meanwhile, d) && d <= MAX_DISORDER
    requires AnswerTo(State(NEW_GATE, events), Ask(user, at)).value.Denied?
    requires later >= at + RetryAfterSeconds(AnswerTo(State(NEW_GATE, events), Ask(user, at)).value.retryAfter) * SECOND
    requires Fruitless(State(NEW_GATE, events + [Ask(user, at)]), user, meanwhile, later)
    ensures AnswerTo(State(NEW_GATE, events + [Ask(user, at)] + meanwhile), Ask(user, later)) == Some(Granted)
  {
    var asked := events + [Ask(user, at)];
    RefusedWaits(events, user, at, meanwhile, later, d);
    Ready(asked, meanwhile, d);
    LaterFollows(events, Ask(user, at), meanwhile, d, later);
    StateConcat(NEW_GATE, asked, meanwhile);
    WaitingThrough(State(NEW_GATE, asked), Peak(IDLE_AFTER, asked), d, meanwhile, user, later);
  }

  lemma WaitingThrough(g: Gate, peak: int, d: nat, meanwhile: seq<Event>, user: int, later: int)
    requires Tame(g, peak, d) && Follows(peak, d, meanwhile) && d <= MAX_DISORDER
    requires Waiting(g, user, later) && Fruitless(g, user, meanwhile, later)
    requires Peak(peak, meanwhile) - d <= later && IDLE_AFTER <= later
    ensures AnswerTo(State(g, meanwhile), Ask(user, later)) == Some(Granted)
  {
    WaitingLasts(g, peak, d, meanwhile, user, later);
    TameRun(g, peak, d, meanwhile);
    WaitingIsGranted(State(g, meanwhile), Peak(peak, meanwhile), d, user, later);
  }

  lemma RefusedWaits(events: seq<Event>, user: int, at: int, meanwhile: seq<Event>, later: int, d: nat)
    requires NearlyOrdered(events + [Ask(user, at)] + meanwhile, d) && d <= MAX_DISORDER
    requires AnswerTo(State(NEW_GATE, events), Ask(user, at)).value.Denied?
    requires later >= at + RetryAfterSeconds(AnswerTo(State(NEW_GATE, events), Ask(user, at)).value.retryAfter) * SECOND
    ensures at <= later && Waiting(State(NEW_GATE, events + [Ask(user, at)]), user, later)
  {
    var ask := Ask(user, at);
    assert events + [ask] + meanwhile == events + ([ask] + meanwhile);
    Ready(events, [ask] + meanwhile, d);
    FollowsConcat(Peak(IDLE_AFTER, events), d, [ask], meanwhile);
    AskFollows(Peak(IDLE_AFTER, events), d, ask);
    RefusalAnnounces(State(NEW_GATE, events), Peak(IDLE_AFTER, events), d, user, at, later);
    NetSnoc(NEW_GATE, user, events, ask);
  }

  lemma AskFollows(peak: int, d: nat, e: Event)
    requires Follows(peak, d, [e])
    ensures InTouch(peak, d, e)
  {
    assert [e][..0] == [];
  }

  lemma LaterFollows(events: seq<Event>, ask: Event, meanwhile: seq<Event>, d: nat, later: int)
    requires NearlyOrdered(events + [ask] + meanwhile, d) && ask.at <= later
    requires forall k :: 0 <= k < |meanwhile| ==> meanwhile[k].at <= later
    ensures Peak(Peak(IDLE_AFTER, events + [ask]), meanwhile) - d <= later && IDLE_AFTER <= later
  {
    var asked, all := events + [ask], events + [ask] + meanwhile;
    assert all[|events|] == ask;
    forall k | 0 <= k < |all| ensures all[k].at <= later + d {
      if k < |asked| {
        assert all[k].at <= all[|events|].at + d;
      } else {
        assert all[k] == meanwhile[k - |asked|];
      }
    }
    FollowsConcat(IDLE_AFTER, d, asked, meanwhile);
    PeakBelow(IDLE_AFTER, all, later + d);
  }

  // ---------- the limit is exact ----------

  /** The credit a request of `user` with reading `at` would find. */
  function Level(g: Gate, user: int, at: int): int {
    if user in g.buckets then Min(BURST, g.buckets[user].credit + (at - g.buckets[user].last)) else BURST
  }

  /** In order, pruning leaves every level as it is. */
  lemma PruneKeepsLevel(g: Gate, peak: int, user: int, now: int, at: int)
    requires Tame(g, peak, 0) && peak <= now <= at
    ensures Level(Prune(g, now), user, at) == Level(g, user, at)
  {
  }

  /** In order, an event finds the level, takes or gives its token, and the level goes on from there. */
  lemma LevelStep(g: Gate, peak: int, user: int, e: Event, at: int)
    requires Tame(g, peak, 0) && InTouch(peak, 0, e) && e.at <= at
    ensures AnswerTo(g, Ask(user, e.at)) == Some(if Level(g, user, e.at) >= TOKEN then Granted else Denied(TOKEN - Level(g, user, e.at) + SECOND))
    ensures Level(After(g, e), user, at) == Min(BURST, Level(g, user, e.at) - TOKEN * Count(g, user, e) + (at - e.at))
  {
    PruneKeepsLevel(g, peak, user, e.at, e.at);
    PruneKeepsLevel(g, peak, user, e.at, at);
    if user in g.buckets {
      RefillExact(g.buckets[user], peak, 0, e.at, 0);
      RefillExact(g.buckets[user], peak, 0, e.at, TOKEN);
    }
  }

  lemma LevelGoesOn(g: Gate, peak: int, user: int, now: int, at: int)
    requires Tame(g, peak, 0) && peak <= now <= at
    ensures Level(g, user, at) == Min(BURST, Level(g, user, now) + (at - now))
  {
  }

  /** A grant and its refund at one reading leave everyone's credit as if neither had happened. */
  lemma RefundUndoesGrant(g: Gate, peak: int, user: int, now: int, other: int, at: int)
    requires Tame(g, peak, 0) && InTouch(peak, 0, Ask(user, now)) && now <= at
    requires AnswerTo(g, Ask(user, now)) == Some(Granted)
    ensures Level(After(After(g, Ask(user, now)), GiveBack(user, now)), other, at) == Level(g, other, at)
  {
    var ask, back := Ask(user, now), GiveBack(user, now);
    var g1 := After(g, ask);
    TameStep(g, peak, 0, ask);
    LevelStep(g, peak, other, ask, now);
    LevelStep(g1, Max(peak, now), other, back, at);
    LevelGoesOn(g, peak, other, now, at);
  }

  /** Admissions minus refunds from event number i on. */
  function NetFrom(g: Gate, user: int, events: seq<Event>, i: nat): int
    requires i <= |events|
  {
    NetAdmissions(State(g, events[..i]), user, events[i..])
  }

  lemma NetFromSnoc(g: Gate, user: int, events: seq<Event>, e: Event, i: nat)
    requires i <= |events|
    ensures NetFrom(g, user, events + [e], i) == NetFrom(g, user, events, i) + Count(State(g, events), user, e)
  {
    var all, start := events + [e], State(g, events[..i]);
    assert all[..i] == events[..i] && all[i..] == events[i..] + [e] && events[..i] + events[i..] == events;
    NetSnoc(start, user, events[i..], e);
    StateConcat(g, events[..i], events[i..]);
  }

  lemma NetFromEnd(g: Gate, user: int, events: seq<Event>)
    ensures NetFrom(g, user, events, |events|) == 0
  {
    assert events[|events|..] == [];
  }

  /** The user's side of a run: when, and what was paid or refunded. */
  function TicksOf(user: int, events: seq<Event>): seq<TokenBucket.Tick> {
    if events == [] then []
    else
      var front, e := events[..|events| - 1], events[|events| - 1];
      TicksOf(user, front) + [TokenBucket.Tick(e.at, TOKEN * Count(State(NEW_GATE, front), user, e))]
  }

  lemma TicksSnoc(user: int, front: seq<Event>, e: Event)
    ensures TicksOf(user, front + [e]) ==
      TicksOf(user, front) + [TokenBucket.Tick(e.at, TOKEN * Count(State(NEW_GATE, front), user, e))]
  {
    assert (front + [e])[..|front|] == front;
  }

  lemma {:induction false} TicksLength(user: int, events: seq<Event>)
    ensures |TicksOf(user, events)| == |events|
    ensures forall i :: 0 <= i < |events| ==> TicksOf(user, events)[i].at == events[i].at
  {
    if events != [] {
      TicksLength(user, events[..|events| - 1]);
    }
  }

  lemma SpentSnoc(ticks: seq<TokenBucket.Tick>, t: TokenBucket.Tick, i: nat)
    requires i <= |ticks|
    ensures TokenBucket.Spent(ticks + [t], i) == TokenBucket.Spent(ticks, i) + t.cost
  {
    assert (ticks + [t])[..|ticks|] == ticks;
  }

  lemma TokensAdd(a: int, b: int)
    ensures TOKEN * (a + b) == TOKEN * a + TOKEN * b
  {
  }

  lemma {:induction false} SpentIsNet(user: int, events: seq<Event>, i: nat)
    requires i <= |events| && |TicksOf(user, events)| == |events|
    ensures TokenBucket.Spent(TicksOf(user, events), i) == TOKEN * NetFrom(NEW_GATE, user, events, i)
    decreases |events|
  {
    if i == |events| {
      NetFromEnd(NEW_GATE, user, events);
    } else {
      var front, e := events[..|events| - 1], events[|events| - 1];
      assert events == front + [e];
      TicksLength(user, front);
      SpentIsNet(user, front, i);
      TicksSnoc(user, front, e);
      SpentSnoc(TicksOf(user, front), TokenBucket.Tick(e.at, TOKEN * Count(State(NEW_GATE, front), user, e)), i);
      NetFromSnoc(NEW_GATE, user, front, e, i);
      TokensAdd(NetFrom(NEW_GATE, user, front, i), Count(State(NEW_GATE, front), user, e));
    }
  }

  /** The level after one more event. */
  lemma LevelAfter(user: int, front: seq<Event>, e: Event, at: int)
    requires NearlyOrdered(front + [e], 0) && e.at <= at
    ensures Level(State(NEW_GATE, front + [e]), user, at) ==
      Min(BURST, Level(State(NEW_GATE, front), user, e.at) - TOKEN * Count(State(NEW_GATE, front), user, e) + (at - e.at))
  {
    Ready(front, [e], 0);
    AskFollows(Peak(IDLE_AFTER, front), 0, e);
    LevelStep(State(NEW_GATE, front), Peak(IDLE_AFTER, front), user, e, at);
    NetSnoc(NEW_GATE, user, front, e);
  }

  lemma OrderedFront(events: seq<Event>)
    requires NearlyOrdered(events, 0) && events != []
    ensures NearlyOrdered(events[..|events| - 1], 0)
    ensures var front := events[..|events| - 1]; forall k :: 0 <= k < |front| ==> front[k].at <= events[|events| - 1].at
    ensures events == events[..|events| - 1] + [events[|events| - 1]]
  {
  }

  lemma LevelSnoc(ticks: seq<TokenBucket.Tick>, t: TokenBucket.Tick, at: int)
    ensures TokenBucket.LevelOf(BURST, ticks + [t], at) == Min(BURST, TokenBucket.LevelOf(BURST, ticks, t.at) - t.cost + (at - t.at))
  {
    assert (ticks + [t])[..|ticks|] == ticks;
  }

  /** In order, the gate's level is the bucket's. */
  lemma {:induction false} LevelIsBucket(user: int, events: seq<Event>, at: int)
    requires NearlyOrdered(events, 0) && forall k :: 0 <= k < |events| ==> events[k].at <= at
    ensures Level(State(NEW_GATE, events), user, at) == TokenBucket.LevelOf(BURST, TicksOf(user, events), at)
    decreases |events|
  {
    if events != [] {
      var front, e := events[..|events| - 1], events[|events| - 1];
      OrderedFront(events);
      LevelIsBucket(user, front, e.at);
      LevelAfter(user, front, e, at);
      TicksSnoc(user, front, e);
      LevelSnoc(TicksOf(user, front), TokenBucket.Tick(e.at, TOKEN * Count(State(NEW_GATE, front), user, e)), at);
    }
  }

  /** Admitting one more request would overdraw the window that begins with event i, by this much. */
  function Overdraft(user: int, events: seq<Event>, i: nat, at: int): int
    requires i < |events|
  {
    TOKEN * (NetFrom(NEW_GATE, user, events, i) + 1) - (BURST + (at - events[i].at))
  }

  /**
   The gate refuses nothing it could grant: in an ordered run a request is denied exactly when
   some window ending with it would cost more than the burst plus its length, refunds counted
   back, and the delay it announces is the greatest such overdraft and a second.
   */
  lemma DeniedExactly(events: seq<Event>, user: int, at: int)
    requires Ordered(events + [Ask(user, at)])
    ensures var answer := AnswerTo(State(NEW_GATE, events), Ask(user, at)).value;
      && (answer.Denied? <==> exists i: nat :: i < |events| && Overdraft(user, events, i, at) > 0)
      && (answer.Denied? ==>
            && (forall i: nat :: i < |events| ==> Overdraft(user, events, i, at) <= answer.retryAfter - SECOND)
            && exists i: nat :: i < |events| && Overdraft(user, events, i, at) == answer.retryAfter - SECOND)
  {
    var level := Level(State(NEW_GATE, events), user, at);
    AnswerIsLevel(events, user, at);
    OverdraftsReach(events, user, at, level);
    if level < TOKEN {
      var i: nat :| i < |events| && Overdraft(user, events, i, at) == TOKEN - level;
    }
  }

  lemma AnswerIsLevel(events: seq<Event>, user: int, at: int)
    requires Ordered(events + [Ask(user, at)])
    ensures var level := Level(State(NEW_GATE, events), user, at);
      AnswerTo(State(NEW_GATE, events), Ask(user, at)) == Some(if level >= TOKEN then Granted else Denied(TOKEN - level + SECOND))
  {
    var ask := Ask(user, at);
    OrderedParts(events, ask);
    Ready(events, [ask], 0);
    AskFollows(Peak(IDLE_AFTER, events), 0, ask);
    LevelStep(State(NEW_GATE, events), Peak(IDLE_AFTER, events), user, ask, at);
  }

  lemma OverdraftsReach(events: seq<Event>, user: int, at: int, level: int)
    requires Ordered(events + [Ask(user, at)]) && level == Level(State(NEW_GATE, events), user, at)
    ensures forall i: nat :: i < |events| ==> Overdraft(user, events, i, at) <= TOKEN - level
    ensures level < TOKEN ==> exists i: nat :: i < |events| && Overdraft(user, events, i, at) == TOKEN - level
  {
    var ticks := TicksOf(user, events);
    OrderedParts(events, Ask(user, at));
    LevelIsBucket(user, events, at);
    TicksLength(user, events);
    forall i: nat | i < |events| ensures Overdraft(user, events, i, at) <= TOKEN - level {
      TokenBucket.LevelWithin(BURST, ticks, at, i);
      OverdraftIsShortfall(user, events, i, at);
    }
    if level < TOKEN {
      var i := TokenBucket.LevelReached(BURST, ticks, at);
      OverdraftIsShortfall(user, events, i, at);
    }
  }

  lemma OverdraftIsShortfall(user: int, events: seq<Event>, i: nat, at: int)
    requires i < |events| && |TicksOf(user, events)| == |events|
    ensures Overdraft(user, events, i, at) == TOKEN - TokenBucket.Left(BURST, TicksOf(user, events), i, at)
  {
    TicksLength(user, events);
    SpentIsNet(user, events, i);
    TokensAdd(NetFrom(NEW_GATE, user, events, i), 1);
  }

  lemma OrderedParts(events: seq<Event>, e: Event)
    requires Ordered(events + [e])
    ensures NearlyOrdered(events, 0) && NearlyOrdered(events + [e], 0)
    ensures forall k :: 0 <= k < |events| ==> events[k].at <= e.at
  {
    var all := events + [e];
    forall k | 0 <= k < |events| ensures events[k] == all[k] && events[k].at <= e.at {
      assert all[k].at <= all[|events|].at;
    }
  }

  // ---------- the gate as it runs ----------

  /** The refund closure an admission returns; it acts at most once. */
  class RefundTicket {
    const user: int
    var used: bool

    constructor (user: int)
      ensures this.user == user && !used
    {
      this.user := user;
      used := false;
    }
  }

  class Limiter {
    var buckets: map<int, Bucket>
    var nextPrune: int

    function Value(): Gate
      reads this
    {
      Gate(buckets, nextPrune)
    }

    constructor ()
      ensures Value() == NEW_GATE
    {
      buckets, nextPrune := map[], 0;
    }

    method PruneIdleBuckets(now: int)
      modifies this
      ensures Value() == Prune(old(Value()), now)
    {
      if nextPrune != 0 && now < nextPrune {
        return;
      }
      nextPrune := now + PRUNE_EVERY;
      var todo := buckets.Keys;
      while todo != {}
        invariant todo <= old(buckets).Keys
        invariant buckets == map u | u in old(buckets) && (u in todo || Sub(now, old(buckets)[u].last) < IDLE_AFTER) :: old(buckets)[u]
        invariant nextPrune == now + PRUNE_EVERY
      {
        var user := Pick(todo);
        if Sub(now, buckets[user].last) >= IDLE_AFTER {
          buckets := buckets - {user};
        }
        todo := todo - {user};
      }
    }

    method Admit(user: int, now: int) returns (answer: Answer, ticket: RefundTicket?)
      modifies this
      ensures (Value(), answer) == AfterAsk(old(Value()), user, now)
      ensures answer.Granted? <==> ticket != null
      ensures ticket != null ==> fresh(ticket) && ticket.user == user && !ticket.used
    {
      PruneIdleBuckets(now);
      var bucket := Bucket(BURST, now);
      if user in buckets {
        bucket := buckets[user];
      }
      bucket := Bucket(Min(BURST, bucket.credit + Sub(now, bucket.last)), now);
      if bucket.credit < TOKEN {
        buckets := buckets[user := bucket];
        return Denied(TOKEN - bucket.credit + SECOND), null;
      }
      bucket := bucket.(credit := bucket.credit - TOKEN);
      buckets := buckets[user := bucket];
      ticket := new RefundTicket(user);
      return Granted, ticket;
    }

    method Refund(ticket: RefundTicket, now: int)
      modifies this, ticket
      ensures ticket.used
      ensures Value() == if old(ticket.used) then old(Value()) else AfterRefund(old(Value()), ticket.user, now)
    {
      if ticket.used {
        return;
      }
      ticket.used := true;
      var bucket := ZERO_BUCKET;
      if ticket.user in buckets {
        bucket := buckets[ticket.user];
      }
      bucket := Bucket(Min(BURST, bucket.credit + Sub(now, bucket.last) + TOKEN), now);
      buckets := buckets[ticket.user := bucket];
    }
  }
}
