/** Recovery of a client in a running system: what the store and the wire of `EndToEnd` are to the recovery loop. */
module RecoveryInWorld {
  import opened Messages
  import opened Contracts
  import opened MessageStore
  import Store = StoreInvariants
  import opened PagePipeline
  import opened StreamLog
  import opened TimelineRuns
  import opened TimelineCoverage
  import opened RecoverySpec
  import opened RecoveryRuns
  import opened RecoveryOutcomes
  import Whole = EndToEnd

  const SYNC_LIMIT := 50

  /** Some measurer and some verdict of the authoriser give this page. */
  ghost predicate ServedFrom(db: Db, t: Target, after: Sequence, through: Option<Sequence>, r: SyncResponse) {
    exists allowed, measure :: ServeSync(db, t, allowed, after, through, SYNC_LIMIT, measure) == ServedPage(r)
  }

  /** What is on the wire may arrive; an older page only as the answer to what the lower end asks for. */
  ghost predicate ArrivesFrom(w: Whole.World, low: Option<Sequence>, input: Input) {
    match input
    case Live(m) => m in w.sent && m.target == w.target
    case Accepted(m) => m in w.sent && m.target == w.target
    case Replace(m) => m in w.sent && m.target == w.target
    case Older(r) => r in w.older && low == Some(r.beforeSequence) && r.beforeSequence > 1
    case _ => false
  }

  ghost predicate AllArriveFrom(w: Whole.World, low: Option<Sequence>, inputs: seq<Input>)
    decreases |inputs|
  {
    inputs == [] || (ArrivesFrom(w, low, inputs[0]) && AllArriveFrom(w, NextLow(low, inputs[0]), inputs[1..]))
  }

  /** The world in which the i-th request is answered, and a run from there to the next. */
  ghost predicate WorldAt(x: Setting, worlds: int -> Whole.World, i: int) {
    && Whole.Sound(worlds(i)) && worlds(i).target == x.target
    && x.logs(i) == LogOf(worlds(i).sys.db, x.target) && |x.logs(i)| <= x.bound
    && exists hs :: worlds(i + 1) == Whole.Run(worlds(i), hs)
  }

  /** A request is answered from the store of its world; what else arrives comes off the wire. */
  ghost predicate RoundFrom(
    x: Setting, worlds: int -> Whole.World, i: int, after: Sequence, through: Option<Sequence>, low: Option<Sequence>)
  {
    var round := x.env(i, after, through, low);
    && (round.reply.Answered? ==> ServedFrom(worlds(i).sys.db, x.target, after, through, round.reply.response))
    && AllArriveFrom(worlds(i + 1), low, round.during)
    && AllArriveFrom(worlds(i + 1), LowAfter(low, round.during), round.pause)
    && (i >= x.calm ==> !IsRateLimit(round))
  }

  /** The surroundings of a client in a run of the whole system, of bounded length, with finitely many rate limits. */
  ghost predicate InWorld(x: Setting, worlds: int -> Whole.World) {
    && 0 <= x.bound <= MAX_SAFE_INTEGER
    && (forall i :: WorldAt(x, worlds, i))
    && (forall i, after, through, low :: RoundFrom(x, worlds, i, after, through, low))
  }

  lemma ArrivalFromWorld(w: Whole.World, low: Option<Sequence>, input: Input)
    requires Whole.Sound(w) && ArrivesFrom(w, low, input)
    ensures HonestArrival(w.target, LogOf(w.sys.db, w.target), low, input)
  {
    match input {
      case Live(m) => assert HonestTo(m.target, LogOf(w.sys.db, m.target), m);
      case Accepted(m) => assert HonestTo(m.target, LogOf(w.sys.db, m.target), m);
      case Replace(m) => assert HonestTo(m.target, LogOf(w.sys.db, m.target), m);
      case Older(r) => assert Whole.HonestOlder(w.target, LogOf(w.sys.db, w.target), r);
    }
  }

  lemma {:induction false} ArrivalsFromWorld(w: Whole.World, low: Option<Sequence>, inputs: seq<Input>)
    requires Whole.Sound(w) && AllArriveFrom(w, low, inputs)
    ensures HonestArrivals(w.target, LogOf(w.sys.db, w.target), low, inputs)
    decreases |inputs|
  {
    if inputs != [] {
      ArrivalFromWorld(w, low, inputs[0]);
      ArrivalsFromWorld(w, NextLow(low, inputs[0]), inputs[1..]);
    }
  }

  lemma LogFromWorld(x: Setting, worlds: int -> Whole.World, i: int)
    requires WorldAt(x, worlds, i) && WorldAt(x, worlds, i + 1)
    ensures LogAt(x, i)
  {
    var w, hs :| w == worlds(i) && worlds(i + 1) == Whole.Run(w, hs);
    Whole.RunKeeps(w, hs);
    Whole.RunGrows(w, hs);
    LogGrows(w.sys.db, worlds(i + 1).sys.db, x.target);
    LogIsDistinct(w.sys.db, x.target);
  }

  lemma RoundFromWorld(x: Setting, worlds: int -> Whole.World, i: int, after: Sequence, through: Option<Sequence>,
                       low: Option<Sequence>)
    requires WorldAt(x, worlds, i) && WorldAt(x, worlds, i + 1) && RoundFrom(x, worlds, i, after, through, low)
    ensures HonestAt(x, i, after, through, low)
  {
    var round, db := x.env(i, after, through, low), worlds(i).sys.db;
    if round.reply.Answered? {
      var allowed, measure :| ServeSync(db, x.target, allowed, after, through, SYNC_LIMIT, measure)
          == ServedPage(round.reply.response);
      Whole.ServedPagesAreHonest(db, x.target, allowed, after, through, SYNC_LIMIT, measure);
    }
    ArrivalsFromWorld(worlds(i + 1), low, round.during);
    ArrivalsFromWorld(worlds(i + 1), LowAfter(low, round.during), round.pause);
  }

  /** Every run of the whole system is an honest setting to a client that recovers in it. */
  lemma WorldsAreHonest(x: Setting, worlds: int -> Whole.World)
    requires InWorld(x, worlds)
    ensures HonestSetting(x)
  {
    forall i ensures LogAt(x, i) {
      assert WorldAt(x, worlds, i) && WorldAt(x, worlds, i + 1);
      LogFromWorld(x, worlds, i);
    }
    forall i, after, through, low ensures HonestAt(x, i, after, through, low) {
      assert WorldAt(x, worlds, i) && WorldAt(x, worlds, i + 1) && RoundFrom(x, worlds, i, after, through, low);
      RoundFromWorld(x, worlds, i, after, through, low);
    }
  }

  /** A recovery in a run of the whole system, from a saved cursor. */
  ghost predicate BeginsIn(x: Setting, worlds: int -> Whole.World, i: int, s: Recovery) {
    InWorld(x, worlds) && AtWork(x, i, s)
  }

  /**
   * In every run of the whole system a recovery ends; it succeeds if and only if all its rounds are
   * friendly, and then reaches what its last fresh watermark saw; and however it ends, the list on
   * display ends with exactly the messages stored by then from its lower end to its cursor.
   */
  lemma RecoveryShowsTheLog(x: Setting, worlds: int -> Whole.World, i: int, s: Recovery) returns (n: nat)
    requires BeginsIn(x, worlds, i, s)
    ensures After(s, x.env, i, n).1 != Going
    ensures After(s, x.env, i, n).1 == Finished <==> FriendlyFor(x, i, s, n)
    ensures FriendlyFor(x, i, s, n) ==> EndsWell(x, i, s, n)
    ensures After(s, x.env, i, n).0.view.cursor.Some? && Store.Dense(worlds(i + n).sys.db)
    ensures forall ids :: Enumerates(ids, After(s, x.env, i, n).0.view) ==>
              Whole.ShowsTheLog(ids, After(s, x.env, i, n).0.view, LogOf(worlds(i + n).sys.db, x.target), x.restored)
  {
    n := SucceedsExactlyWhenFriendly(x, i, s);
    assert WorldAt(x, worlds, i + n);
    var final := After(s, x.env, i, n).0;
    forall ids | Enumerates(ids, final.view) ensures Whole.ShowsTheLog(ids, final.view, x.logs(i + n), x.restored) {
      Whole.TrackingShowsTheLog(ids, final.view, x.logs(i + n), x.restored);
    }
  }
}
