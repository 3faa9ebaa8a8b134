/**
 The one-shot watchers of an agent under every interleaving. A report and an edit each change the
 agent under its lock, but wake channels after releasing it, so wake-ups of several calls mix freely.
 */
module StatusWatchers {
  import opened Protobufs
  import opened AgentSpec

  /**
   Where each channel passed to an edit is: waiting for a report (`pending`), taken by a report that has
   not yet woken it (`taken`), about to be woken by an edit that changed nothing (`sending`), or woken.
   */
  datatype Watch<Ch> = Watch(
    agent: AgentState,
    used: set<Ch>,
    pending: multiset<Ch>,
    taken: multiset<Ch>,
    sending: multiset<Ch>,
    woken: multiset<Ch>)

  datatype Step<Ch> =
    | LockedEdit(text: string, channel: Ch)
    | LockedReport(message: AgentToServer, display: string)
    | WakeTaken(channel: Ch)
    | WakeSender(channel: Ch)

  /** Every edit brings a fresh channel, and a wake-up is one that is due. */
  predicate Enabled<Ch(==)>(w: Watch<Ch>, step: Step<Ch>) {
    match step
    case LockedEdit(_, ch) => ch !in w.used
    case LockedReport(_, _) => true
    case WakeTaken(ch) => ch in w.taken
    case WakeSender(ch) => ch in w.sending
  }

  function Next<Ch>(w: Watch<Ch>, step: Step<Ch>): Watch<Ch> {
    match step
    case LockedEdit(text, ch) =>
      var w' := w.(agent := Edited(w.agent, text), used := w.used + {ch});
      if PushedBy(w.agent, text).Some? then w'.(pending := w.pending + multiset{ch})
      else w'.(sending := w.sending + multiset{ch})
    case LockedReport(m, display) =>
      w.(agent := Received(w.agent, m, display), pending := multiset{}, taken := w.taken + w.pending)
    case WakeTaken(ch) => w.(taken := w.taken - multiset{ch}, woken := w.woken + multiset{ch})
    case WakeSender(ch) => w.(sending := w.sending - multiset{ch}, woken := w.woken + multiset{ch})
  }

  ghost predicate Leads<Ch>(w: Watch<Ch>, steps: seq<Step<Ch>>, w': Watch<Ch>)
    decreases |steps|
  {
    if steps == [] then w == w' else Enabled(w, steps[0]) && Leads(Next(w, steps[0]), steps[1..], w')
  }

  predicate Init<Ch(==)>(w: Watch<Ch>) {
    w.used == {} && w.pending == w.taken == w.sending == w.woken == multiset{}
  }

  /** Every channel used is in exactly one place, once. */
  ghost predicate EachOnce<Ch(!new)>(w: Watch<Ch>) {
    forall ch: Ch :: w.pending[ch] + w.taken[ch] + w.sending[ch] + w.woken[ch] == if ch in w.used then 1 else 0
  }

  lemma StepKeepsEachOnce<Ch(!new)>(w: Watch<Ch>, step: Step<Ch>)
    requires EachOnce(w) && Enabled(w, step)
    ensures EachOnce(Next(w, step))
  {
  }

  /** Conservation over every interleaving: channels are neither lost nor doubled, so none is woken twice. */
  lemma {:induction false} EachWokenAtMostOnce<Ch(!new)>(w: Watch<Ch>, steps: seq<Step<Ch>>, w': Watch<Ch>)
    requires EachOnce(w) && Leads(w, steps, w')
    ensures EachOnce(w') && w.used <= w'.used
    ensures forall ch: Ch :: w'.woken[ch] <= 1
    decreases |steps|
  {
    if steps != [] {
      StepKeepsEachOnce(w, steps[0]);
      EachWokenAtMostOnce(Next(w, steps[0]), steps[1..], w');
    }
  }

  /** Once a channel has left the waiting list it never returns to it. */
  lemma {:induction false} NeverPendingAgain<Ch>(w: Watch<Ch>, ch: Ch, steps: seq<Step<Ch>>, w': Watch<Ch>)
    requires ch in w.used && ch !in w.pending && Leads(w, steps, w')
    ensures ch in w'.used && ch !in w'.pending
    decreases |steps|
  {
    if steps != [] {
      NeverPendingAgain(Next(w, steps[0]), ch, steps[1..], w');
    }
  }

  /** Some step of the run is a report. */
  predicate HasReport<Ch>(steps: seq<Step<Ch>>) {
    exists i | 0 <= i < |steps| :: steps[i].LockedReport?
  }

  lemma {:induction false} ReportEmptiesPending<Ch>(w: Watch<Ch>, ch: Ch, steps: seq<Step<Ch>>, w': Watch<Ch>)
    requires ch in w.used && Leads(w, steps, w') && HasReport(steps)
    ensures ch in w'.used && ch !in w'.pending
    decreases |steps|
  {
    var next := Next(w, steps[0]);
    if steps[0].LockedReport? {
      NeverPendingAgain(next, ch, steps[1..], w');
    } else {
      var i :| 0 <= i < |steps| && steps[i].LockedReport?;
      assert steps[1..][i - 1].LockedReport?;
      ReportEmptiesPending(next, ch, steps[1..], w');
    }
  }

  /**
   A fresh channel passed to an edit has been woken exactly once when no wake-up is due any more, if
   the edit changed nothing or some later step was a report; and if it changed the config and no report
   followed, it has not been woken at all.
   */
  lemma WokenExactlyOnce<Ch(!new)>(w: Watch<Ch>, text: string, ch: Ch, steps: seq<Step<Ch>>, w': Watch<Ch>)
    requires EachOnce(w) && Enabled(w, LockedEdit(text, ch))
    requires Leads(Next(w, LockedEdit(text, ch)), steps, w')
    requires w'.taken == w'.sending == multiset{}
    ensures w'.woken[ch] == if PushedBy(w.agent, text).None? || HasReport(steps) then 1 else 0
  {
    var edited := Next(w, LockedEdit(text, ch));
    StepKeepsEachOnce(w, LockedEdit(text, ch));
    EachWokenAtMostOnce(edited, steps, w');
    assert w'.pending[ch] + w'.woken[ch] == 1;
    if PushedBy(w.agent, text).None? {
      NeverPendingAgain(edited, ch, steps, w');
    } else if HasReport(steps) {
      ReportEmptiesPending(edited, ch, steps, w');
    } else {
      StaysPending(edited, ch, steps, w');
    }
  }

  lemma {:induction false} StaysPending<Ch>(w: Watch<Ch>, ch: Ch, steps: seq<Step<Ch>>, w': Watch<Ch>)
    requires ch in w.pending && Leads(w, steps, w') && !HasReport(steps)
    ensures ch in w'.pending
    decreases |steps|
  {
    if steps != [] {
      assert forall i | 0 <= i < |steps[1..]| :: steps[1..][i] == steps[i + 1];
      StaysPending(Next(w, steps[0]), ch, steps[1..], w');
    }
  }

  // ---------- The methods as paths ----------

  /** The machine stands where an agent does for which these channels wait. */
  predicate Stands<Ch(==)>(w: Watch<Ch>, agent: AgentState, waiting: seq<Ch>) {
    w.agent == agent && w.pending == multiset(waiting)
  }

  function WakeAll<Ch>(channels: seq<Ch>): seq<Step<Ch>> {
    if channels == [] then [] else [WakeTaken(channels[0])] + WakeAll(channels[1..])
  }

  /** A report, and then the wake-up of every channel that waited for it. */
  function ReportPath<Ch>(m: AgentToServer, display: string, waiting: seq<Ch>): seq<Step<Ch>> {
    [LockedReport(m, display)] + WakeAll(waiting)
  }

  function AfterReport<Ch>(w: Watch<Ch>, m: AgentToServer, display: string): Watch<Ch> {
    w.(agent := Received(w.agent, m, display), pending := multiset{}, woken := w.woken + w.pending)
  }

  /** An edit, and then the wake-up of its channel if it changed nothing. */
  function EditPath<Ch>(agent: AgentState, text: string, ch: Ch): seq<Step<Ch>> {
    [LockedEdit(text, ch)] + if PushedBy(agent, text).Some? then [] else [WakeSender(ch)]
  }

  function AfterEdit<Ch>(w: Watch<Ch>, text: string, ch: Ch): Watch<Ch> {
    var w' := w.(agent := Edited(w.agent, text), used := w.used + {ch});
    if PushedBy(w.agent, text).Some? then w'.(pending := w.pending + multiset{ch})
    else w'.(woken := w.woken + multiset{ch})
  }

  lemma {:induction false} WakeAllIsPath<Ch>(w: Watch<Ch>, channels: seq<Ch>)
    requires multiset(channels) <= w.taken
    ensures Leads(w, WakeAll(channels),
                  w.(taken := w.taken - multiset(channels), woken := w.woken + multiset(channels)))
    decreases |channels|
  {
    if channels == [] {
      assert w.taken - multiset(channels) == w.taken && w.woken + multiset(channels) == w.woken;
    } else {
      var ch, rest := channels[0], channels[1..];
      assert channels == [ch] + rest;
      var next := Next(w, WakeTaken(ch));
      WakeAllIsPath(next, rest);
      assert next.taken - multiset(rest) == w.taken - multiset(channels);
      assert next.woken + multiset(rest) == w.woken + multiset(channels);
      assert WakeAll(channels)[1..] == WakeAll(rest);
    }
  }

  lemma ReportIsPath<Ch>(w: Watch<Ch>, m: AgentToServer, display: string, waiting: seq<Ch>)
    requires w.pending == multiset(waiting)
    ensures Leads(w, ReportPath(m, display, waiting), AfterReport(w, m, display))
  {
    hide Received;
    var taken := Next(w, LockedReport(m, display));
    WakeAllIsPath(taken, waiting);
    assert taken.taken - multiset(waiting) == w.taken;
    assert ReportPath(m, display, waiting)[1..] == WakeAll(waiting);
  }

  lemma EditIsPath<Ch>(w: Watch<Ch>, text: string, ch: Ch)
    requires ch !in w.used
    ensures Leads(w, EditPath(w.agent, text, ch), AfterEdit(w, text, ch))
  {
    var locked := Next(w, LockedEdit(text, ch));
    var path := EditPath(w.agent, text, ch);
    if PushedBy(w.agent, text).Some? {
      assert path[1..] == [];
    } else {
      assert path[1..] == [WakeSender(ch)] && path[1..][1..] == [];
      assert Next(locked, WakeSender(ch)).sending == w.sending;
      assert Leads(locked, path[1..], AfterEdit(w, text, ch));
    }
  }
}
