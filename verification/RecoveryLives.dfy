/** The whole life of a session: recoveries turn by turn, and what arrives between them. */
module RecoveryLives {
  import opened TimelineRuns
  import opened GapBuffer
  import opened RecoverySpec
  import opened RecoveryRuns
  import opened RecoveryExits

  /** A recovery is started, its loop takes a turn, or messages arrive while none is running. */
  datatype Moment = Starts | Turns | Receives(inputs: seq<Input>)

  /** A turn that fails ends the recovery. */
  function TurnOf(env: Environment, i: int, s: Recovery): Recovery
    requires Located(s)
  {
    var (next, exit) := Iterate(s, RoundAt(env, i, s));
    if exit.Failed? then Conclude(next, exit.failure).0 else next
  }

  function Then(env: Environment, i: int, s: Recovery, m: Moment): Recovery
    requires Located(s)
  {
    match m
    case Starts => Begin(s)
    case Turns => TurnOf(env, i, s)
    case Receives(inputs) => Await(s, inputs, false)
  }

  /** Every turn takes a round. */
  function RoundAfter(i: int, m: Moment): int {
    if m.Turns? then i + 1 else i
  }

  lemma ThenKeepsLocated(env: Environment, i: int, s: Recovery, m: Moment)
    requires Located(s)
    ensures Located(Then(env, i, s, m))
  {
    match m {
      case Starts =>
      case Turns => IterateKeepsLocated(s, RoundAt(env, i, s));
      case Receives(inputs) => AwaitKeepsLocated(s, inputs, false);
    }
  }

  /** The session after some moments of its life. */
  function Live(env: Environment, i: int, s: Recovery, life: seq<Moment>): Recovery
    requires Located(s)
    decreases |life|
  {
    if life == [] then s
    else
      ThenKeepsLocated(env, i, s, life[0]);
      Live(env, RoundAfter(i, life[0]), Then(env, i, s, life[0]), life[1..])
  }

  function RoundsAfter(i: int, life: seq<Moment>): int
    decreases |life|
  {
    if life == [] then i else RoundsAfter(RoundAfter(i, life[0]), life[1..])
  }

  ghost predicate HonestMoment(x: Setting, i: int, s: Recovery, m: Moment) {
    m.Receives? ==> HonestArrivals(x.target, x.logs(i), s.view.historyBefore, m.inputs)
  }

  /** What arrives between recoveries is honest too. */
  ghost predicate HonestLife(x: Setting, i: int, s: Recovery, life: seq<Moment>)
    requires Located(s)
    decreases |life|
  {
    life == [] ||
    (HonestMoment(x, i, s, life[0]) &&
     (ThenKeepsLocated(x.env, i, s, life[0]);
      HonestLife(x, RoundAfter(i, life[0]), Then(x.env, i, s, life[0]), life[1..])))
  }

  /** The moment takes the cursor past the watermark that the session keeps. */
  ghost predicate MomentSticks(env: Environment, i: int, s: Recovery, m: Moment)
    requires Located(s)
  {
    match m
    case Starts => false
    case Turns => !s.aborted && SticksAfter(s, RoundAt(env, i, s))
    case Receives(inputs) => PassesWatermark(s, Arrived(inputs))
  }

  ghost predicate SomeMomentSticks(env: Environment, i: int, s: Recovery, life: seq<Moment>)
    requires Located(s)
    decreases |life|
  {
    life != [] &&
    (MomentSticks(env, i, s, life[0]) ||
     (ThenKeepsLocated(env, i, s, life[0]);
      SomeMomentSticks(env, RoundAfter(i, life[0]), Then(env, i, s, life[0]), life[1..])))
  }

  lemma TurnLives(x: Setting, i: int, s: Recovery)
    requires HonestSetting(x) && OnTrack(x, i, s)
    ensures OnTrack(x, i + 1, TurnOf(x.env, i, s))
    ensures Stuck(TurnOf(x.env, i, s)) <==> Stuck(s) || MomentSticks(x.env, i, s, Turns)
  {
    TurnIsGood(x, i, s);
    if Stuck(s) {
      StuckTurnFails(x, i, s);
    } else if !s.aborted {
      TurnExits(x, i, s);
    }
  }

  lemma MomentLives(x: Setting, i: int, s: Recovery, m: Moment)
    requires HonestSetting(x) && OnTrack(x, i, s) && HonestMoment(x, i, s, m)
    ensures OnTrack(x, RoundAfter(i, m), Then(x.env, i, s, m))
    ensures Stuck(Then(x.env, i, s, m)) <==> Stuck(s) || MomentSticks(x.env, i, s, m)
  {
    match m {
      case Starts =>
      case Turns => TurnLives(x, i, s);
      case Receives(inputs) =>
        if Stuck(s) {
          WaitStaysStuck(x, i, s, inputs);
        } else {
          WaitSticksExactly(x, i, s, inputs);
        }
    }
  }

  lemma {:induction false} LifeSticks(x: Setting, i: int, s: Recovery, life: seq<Moment>)
    requires HonestSetting(x) && OnTrack(x, i, s) && HonestLife(x, i, s, life)
    ensures OnTrack(x, RoundsAfter(i, life), Live(x.env, i, s, life))
    ensures Stuck(Live(x.env, i, s, life)) <==> Stuck(s) || SomeMomentSticks(x.env, i, s, life)
    decreases |life|
  {
    if life != [] {
      MomentLives(x, i, s, life[0]);
      LifeSticks(x, RoundAfter(i, life[0]), Then(x.env, i, s, life[0]), life[1..]);
    }
  }

  /**
   * Over its whole life, whenever recoveries are started and whatever arrives during or between them,
   * a session becomes stuck if and only if some turn of a recovery leaves it so, or what arrives
   * between two recoveries goes past the watermark it keeps. Once stuck, it stays so.
   */
  lemma GetsStuckExactly(x: Setting, i: int, s: Recovery, life: seq<Moment>)
    requires HonestSetting(x) && OnTrack(x, i, s) && !Stuck(s) && HonestLife(x, i, s, life)
    ensures Stuck(Live(x.env, i, s, life)) <==> SomeMomentSticks(x.env, i, s, life)
  {
    LifeSticks(x, i, s, life);
  }

  function TurnsTaken(n: nat): seq<Moment> {
    seq(n, _ => Turns)
  }

  /** A recovery is what its turns make of the session, up to the one that ends it. */
  lemma {:induction false} RecoveryIsLived(env: Environment, i: int, s: Recovery, n: nat)
    requires Located(s) && (n > 0 ==> After(s, env, i, n - 1).1 == Going)
    ensures var (final, exit) := After(s, env, i, n);
            Live(env, i, s, TurnsTaken(n)) == if exit.Failed? then Conclude(final, exit.failure).0 else final
    decreases n
  {
    if n > 0 {
      var (next, exit) := Iterate(s, RoundAt(env, i, s));
      assert TurnsTaken(n)[0] == Turns && TurnsTaken(n)[1..] == TurnsTaken(n - 1);
      IterateKeepsLocated(s, RoundAt(env, i, s));
      if n > 1 {
        AfterGoesOn(s, env, i, n - 2);
        AfterGoesOn(s, env, i, n - 1);
        RecoveryIsLived(env, i + 1, next, n - 1);
      }
    }
  }
}
