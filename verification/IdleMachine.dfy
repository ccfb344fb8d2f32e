/**
 * The idle and standby machine of a device connection, touched by several goroutines under one mutex:
 * internal/server/xiaozhi.go.
 */
module IdleMachine {
  import opened Wrappers

  /** `lastActive` is None for Go's zero time. */
  datatype State = State(lastActive: Option<int>, standbySent: bool, idleClosing: bool, turnActive: bool,
                         responseRefresh: bool)

  const FRESH := State(None, false, false, false, false)

  /** The methods other goroutines may call at any moment. */
  datatype Call = Touch | Resume | Begin(refresh: bool) | End | ClaimStandby(timeout: int) | ClaimClose(timeout: int)

  function IdleFor(s: State, now: int, timeout: int): bool {
    s.lastActive.Some? && now - s.lastActive.value >= timeout
  }

  predicate Granted(s: State, call: Call, now: int) {
    match call
    case ClaimStandby(timeout) => !s.standbySent && !s.idleClosing && !s.turnActive && IdleFor(s, now, timeout)
    case ClaimClose(timeout) => !s.idleClosing && !s.turnActive && IdleFor(s, now, timeout)
    case _ => false
  }

  function After(s: State, call: Call, now: int): State {
    match call
    case Touch => s.(lastActive := Some(now), standbySent := false)
    case Resume => if s.standbySent then s.(lastActive := Some(now), standbySent := false) else s
    case Begin(refresh) =>
      var t := s.(responseRefresh := refresh, turnActive := true);
      if refresh then t.(lastActive := Some(now), standbySent := false) else t
    case End =>
      s.(lastActive := if s.responseRefresh then Some(now) else s.lastActive,
         responseRefresh := false, turnActive := false)
    case ClaimStandby(_) => if Granted(s, call, now) then s.(standbySent := true) else s
    case ClaimClose(_) => if Granted(s, call, now) then s.(idleClosing := true, turnActive := true) else s
  }

  class Connection {
    var lastActive: Option<int>
    var standbySent: bool
    var idleClosing: bool
    var turnActive: bool
    var responseRefresh: bool

    function Now(): State
      reads this
    {
      State(lastActive, standbySent, idleClosing, turnActive, responseRefresh)
    }

    constructor ()
      ensures Now() == FRESH
    {
      lastActive, standbySent, idleClosing, turnActive, responseRefresh := None, false, false, false, false;
    }

    method TouchActivity(now: int)
      modifies this
      ensures Now() == After(old(Now()), Touch, now)
    {
      lastActive := Some(now);
      standbySent := false;
    }

    method ResumeFromStandby(now: int)
      modifies this
      ensures Now() == After(old(Now()), Resume, now)
    {
      if standbySent {
        lastActive := Some(now);
        standbySent := false;
      }
    }

    method BeginResponse(refreshActivity: bool, now: int)
      modifies this
      ensures Now() == After(old(Now()), Begin(refreshActivity), now)
    {
      responseRefresh := refreshActivity;
      if refreshActivity {
        lastActive := Some(now);
        standbySent := false;
      }
      turnActive := true;
    }

    method EndResponse(now: int)
      modifies this
      ensures Now() == After(old(Now()), End, now)
    {
      if responseRefresh {
        lastActive := Some(now);
      }
      responseRefresh := false;
      turnActive := false;
    }

    method ClaimVoiceStandby(timeout: int, now: int) returns (claimed: bool)
      modifies this
      ensures claimed == Granted(old(Now()), ClaimStandby(timeout), now)
      ensures Now() == After(old(Now()), ClaimStandby(timeout), now)
    {
      if standbySent || idleClosing || turnActive || lastActive.None? || now - lastActive.value < timeout {
        return false;
      }
      standbySent := true;
      claimed := true;
    }

    method ClaimIdleClose(timeout: int, now: int) returns (claimed: bool)
      modifies this
      ensures claimed == Granted(old(Now()), ClaimClose(timeout), now)
      ensures Now() == After(old(Now()), ClaimClose(timeout), now)
    {
      if idleClosing || turnActive || lastActive.None? || now - lastActive.value < timeout {
        return false;
      }
      idleClosing := true;
      turnActive := true;
      claimed := true;
    }
  }

  // ----- Runs: any interleaving of calls with a clock that never goes back -----

  datatype Event = Event(call: Call, at: int)

  type Trace = seq<Event>

  ghost predicate Clocked(run: Trace) {
    forall i, j :: 0 <= i <= j < |run| ==> run[i].at <= run[j].at
  }

  /** The state before event n. */
  function StateAt(run: Trace, n: nat): State
    requires n <= |run|
  {
    if n == 0 then FRESH else After(StateAt(run, n - 1), run[n - 1].call, run[n - 1].at)
  }

  predicate Claimed(run: Trace, n: nat)
    requires n < |run|
  {
    Granted(StateAt(run, n), run[n].call, run[n].at)
  }

  // What the trace alone says, without looking at the machine; grants and their consequences define each other.

  /**
   * Of the events before event n that begin or end a turn, the last one begins it; a granted close counts as a
   * beginning. As the connection runs one turn at a time, this is whether a turn is open.
   */
  predicate TurnOpen(run: Trace, n: nat)
    requires n <= |run|
    decreases n, 0
  {
    if n == 0 then false
    else if run[n - 1].call.Begin? then true
    else if run[n - 1].call.End? then false
    else if run[n - 1].call.ClaimClose? && IsGrant(run, n - 1) then true
    else TurnOpen(run, n - 1)
  }

  /** Whether the turn an End before event n would close was begun with refresh. */
  predicate RefreshPending(run: Trace, n: nat)
    requires n <= |run|
  {
    if n == 0 then false
    else if run[n - 1].call.Begin? then run[n - 1].call.refresh
    else if run[n - 1].call.End? then false
    else RefreshPending(run, n - 1)
  }

  /** A standby has been granted before event n and nothing has woken the device since. */
  predicate InStandby(run: Trace, n: nat)
    requires n <= |run|
    decreases n, 0
  {
    if n == 0 then false
    else if run[n - 1].call.ClaimStandby? && IsGrant(run, n - 1) then true
    else if Wakes(run[n - 1].call) then false
    else InStandby(run, n - 1)
  }

  predicate Wakes(call: Call) {
    call.Touch? || call.Resume? || (call.Begin? && call.refresh)
  }

  /** Event n counts as activity. */
  predicate Refreshes(run: Trace, n: nat)
    requires n < |run|
    decreases n, 1
  {
    match run[n].call
    case Touch => true
    case Resume => InStandby(run, n)
    case Begin(refresh) => refresh
    case End => RefreshPending(run, n)
    case _ => false
  }

  /** The time of the last activity before event n. */
  function LastRefresh(run: Trace, n: nat): Option<int>
    requires n <= |run|
    decreases n, 0
  {
    if n == 0 then None
    else if Refreshes(run, n - 1) then Some(run[n - 1].at)
    else LastRefresh(run, n - 1)
  }

  predicate CloseGranted(run: Trace, n: nat)
    requires n <= |run|
    decreases n, 0
  {
    n > 0 && ((run[n - 1].call.ClaimClose? && IsGrant(run, n - 1)) || CloseGranted(run, n - 1))
  }

  /** Activity was seen before event n, and by then it is at least the timeout ago. */
  predicate Quiet(run: Trace, n: nat, timeout: int)
    requires n < |run|
    decreases n, 1
  {
    LastRefresh(run, n).Some? && run[n].at - LastRefresh(run, n).value >= timeout
  }

  /** Event n is a claim that ought to be granted: no turn open, none granted that rules it out, quiet long enough. */
  predicate IsGrant(run: Trace, n: nat)
    requires n < |run|
    decreases n, 2
  {
    match run[n].call
    case ClaimStandby(timeout) =>
      !InStandby(run, n) && !CloseGranted(run, n) && !TurnOpen(run, n) && Quiet(run, n, timeout)
    case ClaimClose(timeout) => !CloseGranted(run, n) && !TurnOpen(run, n) && Quiet(run, n, timeout)
    case _ => false
  }

  /** The machine's five fields are exactly these readings of the trace, and it grants exactly what it ought to. */
  lemma {:induction false} FieldsMeanHistory(run: Trace, n: nat)
    requires n <= |run|
    ensures StateAt(run, n)
         == State(LastRefresh(run, n), InStandby(run, n), CloseGranted(run, n), TurnOpen(run, n),
                  RefreshPending(run, n))
    ensures n < |run| ==> (Claimed(run, n) <==> IsGrant(run, n))
    decreases n
  {
    if n == 0 {
    } else {
      FieldsMeanHistory(run, n - 1);
    }
  }

  lemma {:induction false} CloseStaysGranted(run: Trace, i: nat, j: nat)
    requires i < j <= |run| && run[i].call.ClaimClose? && Claimed(run, i)
    ensures CloseGranted(run, j)
    decreases j
  {
    if j == i + 1 {
      FieldsMeanHistory(run, i);
    } else {
      CloseStaysGranted(run, i, j - 1);
    }
  }

  /** Idle close is granted at most once, and after it neither another close nor a standby. */
  lemma CloseIsFinal(run: Trace, i: nat, j: nat)
    requires i < j < |run| && run[i].call.ClaimClose? && Claimed(run, i)
    ensures !Claimed(run, j)
  {
    CloseStaysGranted(run, i, j);
    FieldsMeanHistory(run, j);
  }

  /** A claim is granted only with no turn open and at least the timeout after the last activity. */
  lemma ClaimsNeedIdleness(run: Trace, n: nat)
    requires n < |run| && Claimed(run, n)
    ensures !TurnOpen(run, n) && LastRefresh(run, n).Some?
    ensures run[n].at - LastRefresh(run, n).value >= run[n].call.timeout
  {
    FieldsMeanHistory(run, n);
  }

  /**
   * And whenever that holds, a close is granted unless one has been, a standby unless one is in force or close was
   * granted.
   */
  lemma IdlenessSuffices(run: Trace, n: nat)
    requires n < |run| && !TurnOpen(run, n) && LastRefresh(run, n).Some? && !CloseGranted(run, n)
    ensures run[n].call.ClaimClose? ==>
              (Claimed(run, n) <==> run[n].at - LastRefresh(run, n).value >= run[n].call.timeout)
    ensures run[n].call.ClaimStandby? && !InStandby(run, n) ==>
              (Claimed(run, n) <==> run[n].at - LastRefresh(run, n).value >= run[n].call.timeout)
  {
    FieldsMeanHistory(run, n);
  }

  /**
   * No event at all between a claim's last activity and the claim itself refreshed: the device was quiet all that
   * time.
   */
  lemma {:induction false} QuietSinceLastRefresh(run: Trace, n: nat, i: nat)
    requires i < n <= |run| && Clocked(run) && Refreshes(run, i)
    ensures LastRefresh(run, n).Some? && run[i].at <= LastRefresh(run, n).value
    decreases n
  {
    if i < n - 1 {
      QuietSinceLastRefresh(run, n - 1, i);
    }
  }

  /** So a claim comes at least its timeout after every earlier activity. */
  lemma ClaimsComeAfterQuiet(run: Trace, n: nat, i: nat)
    requires i < n < |run| && Clocked(run) && Claimed(run, n) && Refreshes(run, i)
    ensures run[n].at - run[i].at >= run[n].call.timeout
  {
    ClaimsNeedIdleness(run, n);
    QuietSinceLastRefresh(run, n, i);
  }

  lemma {:induction false} StandbyLasts(run: Trace, i: nat, j: nat)
    requires i < j <= |run| && run[i].call.ClaimStandby? && Claimed(run, i)
    ensures InStandby(run, j) || exists k :: i < k < j && Wakes(run[k].call) && Refreshes(run, k)
    decreases j
  {
    if j == i + 1 {
      FieldsMeanHistory(run, i);
    } else {
      StandbyLasts(run, i, j - 1);
      if InStandby(run, j - 1) && Wakes(run[j - 1].call) {
        assert Refreshes(run, j - 1);
      }
    }
  }

  /** Two standby grants are separated by an event that refreshes and wakes the device. */
  lemma StandbyGrantsAreSeparated(run: Trace, i: nat, j: nat)
    requires i < j < |run| && run[i].call.ClaimStandby? && run[j].call.ClaimStandby? && Claimed(run, i)
            && Claimed(run, j)
    ensures exists k :: i < k < j && Wakes(run[k].call) && Refreshes(run, k)
  {
    StandbyLasts(run, i, j);
    FieldsMeanHistory(run, j);
  }

  /** A turn begun without refresh moves the last activity neither when it begins nor when it ends. */
  lemma QuietTurnsDoNotRefresh(run: Trace, b: nat, e: nat)
    requires b < e < |run| && run[b].call == Begin(false) && run[e].call == End
    requires forall k :: b < k < e ==> !run[k].call.Begin? && !run[k].call.End?
    ensures !Refreshes(run, b) && !Refreshes(run, e)
    ensures StateAt(run, b + 1).lastActive == StateAt(run, b).lastActive
    ensures StateAt(run, e + 1).lastActive == StateAt(run, e).lastActive
  {
    PendingLasts(run, b, e);
    FieldsMeanHistory(run, e);
  }

  lemma {:induction false} PendingLasts(run: Trace, b: nat, e: nat)
    requires b < e <= |run| && run[b].call.Begin?
    requires forall k :: b < k < e ==> !run[k].call.Begin? && !run[k].call.End?
    ensures RefreshPending(run, e) == run[b].call.refresh
    decreases e
  {
    if e > b + 1 {
      PendingLasts(run, b, e - 1);
    }
  }
}
