/**
 Start-up and shutdown of the connection to a hosting terminal. Start-up gives up the console lock
 while it waits for the terminal's answer, so signals and close events of other threads can come in
 between; every other operation runs under the lock. A run is any interleaving of these operations.
 */
module PtyLifecycle {
  import opened Options

  datatype Phase = Uninitialized | Initialized | Starting | StartupFailed | Running

  datatype Size = Size(columns: int, rows: int)

  /** What happens before start-up waits: its thread cannot be made, the pipe breaks, or all is well. */
  datatype Launch = Threw | Broke | Launched

  datatype Event =
    | Start(launch: Launch)
    | Resume
    | CloseEvent
    | Resize(size: Size)
    | ShowHide(show: bool)

  /** The signal thread's part: what is stashed before the console is connected, and what was asked of it after. */
  datatype Signals = Signals(connected: bool, earlyResize: Option<Size>, earlyShow: Option<bool>,
                             resizes: seq<Size>, shows: seq<bool>)

  /** `closes` counts the times the clients were told to close; `waiting` is start-up without the lock. */
  datatype Host = Host(phase: Phase, waiting: bool, closeSent: bool, closes: nat,
                       hasInput: bool, hasSignals: bool, signals: Signals)

  // ------------------------------------------------------------------------ one step

  function Resized(g: Signals, size: Size): Signals {
    if !g.connected then g.(earlyResize := Some(size)) else g.(resizes := g.resizes + [size])
  }

  function Shown(g: Signals, show: bool): Signals {
    if !g.connected then g.(earlyShow := Some(show)) else g.(shows := g.shows + [show])
  }

  function Connected(g: Signals): Signals {
    var g1 := g.(connected := true);
    var g2 := if g1.earlyResize.Some? then Resized(g1, g1.earlyResize.value) else g1;
    if g2.earlyShow.Some? then Shown(g2, g2.earlyShow.value) else g2
  }

  function Closed(h: Host): Host {
    if h.phase == Starting then h.(phase := StartupFailed)
    else if h.closeSent then h
    else h.(closeSent := true, closes := h.closes + 1)
  }

  function Finished(h: Host): Host {
    var h1 := if h.hasSignals then h.(signals := Connected(h.signals)) else h;
    if h1.phase != Starting then h1 else h1.(phase := Running)
  }

  function Started(h: Host, launch: Launch): Host {
    if h.phase != Initialized then h
    else
      var h1 := h.(phase := Starting);
      if !h.hasInput then Finished(h1.(waiting := false))
      else match launch
        case Threw => h1
        case Broke => Closed(h1).(waiting := true)
        case Launched => h1.(waiting := true)
  }

  function Step(h: Host, e: Event): Host {
    match e
    case Start(launch) => Started(h, launch)
    case Resume => Finished(h.(waiting := false))
    case CloseEvent => Closed(h)
    case Resize(size) => h.(signals := Resized(h.signals, size))
    case ShowHide(show) => h.(signals := Shown(h.signals, show))
  }

  /** Start-up resumes only after it waited, and signals need the signal thread. */
  predicate Enabled(h: Host, e: Event) {
    && (e.Resume? ==> h.waiting)
    && (e.Resize? || e.ShowHide? ==> h.hasSignals)
  }

  function Run(h: Host, es: seq<Event>): Host {
    if es == [] then h else Step(Run(h, es[..|es| - 1]), es[|es| - 1])
  }

  ghost predicate Possible(h: Host, es: seq<Event>) {
    es == [] || (Possible(h, es[..|es| - 1]) && Enabled(Run(h, es[..|es| - 1]), es[|es| - 1]))
  }

  /** Pipes are set up and nothing has happened yet. */
  predicate Fresh(h: Host) {
    && h.phase == Initialized && !h.waiting && !h.closeSent && h.closes == 0
    && h.signals == Signals(false, None, None, [], [])
  }

  // --------------------------------------------------------------------------- closing

  /** The clients are told to close at most once, and never during start-up. */
  lemma {:induction false} ClosedAtMostOnce(h: Host, es: seq<Event>)
    requires Fresh(h)
    ensures Run(h, es).closes == (if Run(h, es).closeSent then 1 else 0)
    ensures es != [] && (Run(h, es[..|es| - 1]).phase == Starting || es[|es| - 1].Start?) ==>
      Run(h, es).closes == Run(h, es[..|es| - 1]).closes
  {
    if es != [] {
      ClosedAtMostOnce(h, es[..|es| - 1]);
    }
  }

  /** A close event came while no start-up was under way. */
  ghost predicate ClosedOutside(h: Host, es: seq<Event>) {
    exists k :: 0 <= k < |es| && es[k] == CloseEvent && Run(h, es[..k]).phase != Starting
  }

  /** The clients are told exactly when such an event comes. */
  lemma {:induction false} ToldExactlyWhen(h: Host, es: seq<Event>)
    requires Fresh(h)
    ensures Run(h, es).closes > 0 <==> ClosedOutside(h, es)
  {
    hide Fresh;
    ClosedAtMostOnce(h, es);
    if es == [] {
      assert Run(h, es).closes == 0 by { FreshIsOpen(h); }
    } else {
      var front, e := es[..|es| - 1], es[|es| - 1];
      ToldExactlyWhen(h, front);
      ClosedAtMostOnce(h, front);
      ClosedOutsideNext(h, es);
      ToldByStep(Run(h, front), e);
    }
  }

  lemma FreshIsOpen(h: Host)
    requires Fresh(h)
    ensures Run(h, []).closes == 0
  {
  }

  lemma ClosedOutsideNext(h: Host, es: seq<Event>)
    requires es != []
    ensures var front, e := es[..|es| - 1], es[|es| - 1];
      ClosedOutside(h, es) <==> ClosedOutside(h, front) || (e == CloseEvent && Run(h, front).phase != Starting)
  {
    hide Run;
    var front, e := es[..|es| - 1], es[|es| - 1];
    if ClosedOutside(h, front) {
      var k :| 0 <= k < |front| && front[k] == CloseEvent && Run(h, front[..k]).phase != Starting;
      assert es[..k] == front[..k] && es[k] == front[k];
    }
    if ClosedOutside(h, es) {
      var k :| 0 <= k < |es| && es[k] == CloseEvent && Run(h, es[..k]).phase != Starting;
      assert k < |front| ==> es[..k] == front[..k] && es[k] == front[k];
      assert k == |front| ==> es[..k] == front;
    }
    if e == CloseEvent && Run(h, front).phase != Starting {
      assert es[..|front|] == front && es[|front|] == e;
    }
  }

  lemma ToldByStep(m: Host, e: Event)
    requires m.closes == if m.closeSent then 1 else 0
    ensures Step(m, e).closes > 0 <==> m.closes > 0 || (e == CloseEvent && m.phase != Starting)
  {
    hide Connected, Resized, Shown;
  }

  // --------------------------------------------------------------------------- running

  /** Where the first start-up begins, or the end. */
  function FirstStart(es: seq<Event>): (i: nat)
    ensures i <= |es| && (i < |es| ==> es[i].Start?)
  {
    if es == [] then 0
    else
      var i := FirstStart(es[..|es| - 1]);
      if i < |es| - 1 || es[|es| - 1].Start? then i else i + 1
  }

  /** Where start-up resumes, or the end. */
  function FirstResume(es: seq<Event>): (i: nat)
    ensures i <= |es| && (i < |es| ==> es[i] == Resume)
  {
    if es == [] then 0
    else
      var i := FirstResume(es[..|es| - 1]);
      if i < |es| - 1 || es[|es| - 1] == Resume then i else i + 1
  }

  /** Nothing before these places begins or resumes start-up. */
  lemma {:induction false} FirstOnes(es: seq<Event>)
    ensures forall k :: 0 <= k < FirstStart(es) ==> !es[k].Start?
    ensures forall k :: 0 <= k < FirstResume(es) ==> es[k] != Resume
  {
    if es != [] {
      FirstOnes(es[..|es| - 1]);
    }
  }

  /** A close event comes after start-up began and before it resumed. */
  ghost predicate ClosedInWindow(es: seq<Event>) {
    exists k :: FirstStart(es) < k < FirstResume(es) && es[k] == CloseEvent
  }

  /** What the events say about start-up: whether and how it began, whether it resumed, whether it was closed. */
  datatype Window = Window(started: bool, launch: Launch, resumed: bool, closed: bool)

  ghost function WindowOf(es: seq<Event>): Window {
    var b := FirstStart(es);
    Window(b < |es|, if b < |es| then es[b].launch else Launched, FirstResume(es) < |es|, ClosedInWindow(es))
  }

  function NextWindow(w: Window, e: Event): Window {
    match e
    case Start(launch) => if w.started then w else w.(started := true, launch := launch)
    case Resume => w.(resumed := true)
    case CloseEvent => if w.started && !w.resumed then w.(closed := true) else w
    case _ => w
  }

  /** The phase and whether start-up is waiting, told from its window alone. */
  ghost predicate PhaseAfter(hasInput: bool, w: Window, phase: Phase, waiting: bool) {
    if !w.started then
      phase == Initialized && !waiting && !w.resumed && !w.closed
    else if !hasInput then
      phase == Running && !waiting && !w.resumed
    else if w.launch == Threw then
      phase == (if w.closed then StartupFailed else Starting) && !waiting && !w.resumed
    else
      && (waiting <==> !w.resumed)
      && phase == (if w.launch == Broke || w.closed then StartupFailed else if w.resumed then Running else Starting)
  }

  lemma WindowNext(es: seq<Event>, e: Event)
    ensures WindowOf(es + [e]) == NextWindow(WindowOf(es), e)
  {
    var all := es + [e];
    assert all[..|all| - 1] == es;
    ClosedNext(es, e);
    hide ClosedInWindow;
    var b := FirstStart(es);
    assert b < |es| ==> all[b] == es[b];
  }

  lemma ClosedNext(es: seq<Event>, e: Event)
    ensures ClosedInWindow(es + [e])
       <==> ClosedInWindow(es) || (e == CloseEvent && FirstStart(es) < |es| && FirstResume(es) == |es|)
  {
    var all := es + [e];
    assert all[..|all| - 1] == es;
    var b, r := FirstStart(all), FirstResume(all);
    hide FirstStart, FirstResume;
    if ClosedInWindow(es) {
      var k :| FirstStart(es) < k < FirstResume(es) && es[k] == CloseEvent;
      assert all[k] == CloseEvent;
    }
    if ClosedInWindow(all) {
      var k :| b < k < r && all[k] == CloseEvent;
      assert k < |es| ==> es[k] == CloseEvent;
    }
    if e == CloseEvent {
      assert all[|es|] == CloseEvent;
    }
  }

  lemma PhaseStep(h: Host, w: Window, e: Event)
    requires PhaseAfter(h.hasInput, w, h.phase, h.waiting) && Enabled(h, e)
    ensures var n := Step(h, e);
      n.hasInput == h.hasInput && PhaseAfter(h.hasInput, NextWindow(w, e), n.phase, n.waiting)
  {
    hide Connected, Resized, Shown;
  }

  lemma {:induction false} PhaseIsKnown(h: Host, es: seq<Event>)
    requires Fresh(h) && Possible(h, es)
    ensures PhaseAfter(h.hasInput, WindowOf(es), Run(h, es).phase, Run(h, es).waiting)
    ensures Run(h, es).hasInput == h.hasInput
  {
    hide PhaseAfter, WindowOf, Step, Enabled;
    if es != [] {
      var front, e := es[..|es| - 1], es[|es| - 1];
      PhaseIsKnown(h, front);
      assert es == front + [e];
      WindowNext(front, e);
      PhaseStep(Run(h, front), WindowOf(front), e);
    } else {
      NothingHappened(h);
    }
  }

  lemma NothingHappened(h: Host)
    requires Fresh(h)
    ensures PhaseAfter(h.hasInput, WindowOf([]), h.phase, h.waiting)
  {
  }

  /**
   The host is running exactly when start-up needed no answer, or waited with its pipe intact and
   resumed without a close event in between.
   */
  lemma RunningExactlyWhenUndisturbed(h: Host, es: seq<Event>)
    requires Fresh(h) && Possible(h, es)
    ensures var b, r := FirstStart(es), FirstResume(es);
      Run(h, es).phase == Running <==>
        b < |es| && (!h.hasInput || (es[b] == Start(Launched) && r < |es| && !ClosedInWindow(es)))
  {
    hide ClosedInWindow;
    PhaseIsKnown(h, es);
    var b := FirstStart(es);
    if b < |es| {
      match es[b].launch
      case Threw =>
      case Broke =>
      case Launched =>
    }
  }

  // --------------------------------------------------------------------------- signals

  function Sizes(es: seq<Event>): seq<Size> {
    if es == [] then []
    else Sizes(es[..|es| - 1]) + if es[|es| - 1].Resize? then [es[|es| - 1].size] else []
  }

  function Visibilities(es: seq<Event>): seq<bool> {
    if es == [] then []
    else Visibilities(es[..|es| - 1]) + if es[|es| - 1].ShowHide? then [es[|es| - 1].show] else []
  }

  /** `asked` are the last of what was `received`: at least the last one if there is any. */
  ghost predicate Latest<T>(asked: seq<T>, received: seq<T>) {
    if asked == [] || received == [] then asked == [] && received == []
    else
      && asked[|asked| - 1] == received[|received| - 1]
      && (|asked| == 1 || Latest(asked[..|asked| - 1], received[..|received| - 1]))
  }

  ghost predicate Stashed<T>(early: Option<T>, received: seq<T>) {
    early == if received == [] then None else Some(received[|received| - 1])
  }

  ghost predicate SignalsHold(g: Signals, sizes: seq<Size>, shows: seq<bool>) {
    if g.connected then Latest(g.resizes, sizes) && Latest(g.shows, shows)
    else g.resizes == [] && g.shows == [] && Stashed(g.earlyResize, sizes) && Stashed(g.earlyShow, shows)
  }

  lemma LatestGrows<T>(asked: seq<T>, received: seq<T>, x: T)
    requires Latest(asked, received)
    ensures Latest(asked + [x], received + [x])
  {
    assert (asked + [x])[..|asked|] == asked && (received + [x])[..|received|] == received;
  }

  lemma ConnectedHolds(g: Signals, sizes: seq<Size>, shows: seq<bool>)
    requires SignalsHold(g, sizes, shows) && !g.connected
    ensures SignalsHold(Connected(g), sizes, shows) && Connected(g).connected
  {
    var r := Connected(g);
    assert r.resizes == if g.earlyResize.Some? then [g.earlyResize.value] else [];
    assert r.shows == if g.earlyShow.Some? then [g.earlyShow.value] else [];
  }

  /** The console connects at most once: at the end of start-up. */
  ghost predicate NotYetConnected(h: Host) {
    h.phase == Initialized || h.waiting ==> !h.signals.connected
  }

  lemma {:induction false} SignalsAreKnown(h: Host, es: seq<Event>)
    requires Fresh(h) && Possible(h, es)
    ensures SignalsHold(Run(h, es).signals, Sizes(es), Visibilities(es))
    ensures NotYetConnected(Run(h, es)) && (Run(h, es).phase == Initialized ==> !Run(h, es).waiting)
  {
    if es != [] {
      hide SignalsHold, NotYetConnected, Connected, Step, Enabled, Fresh;
      var front, e := es[..|es| - 1], es[|es| - 1];
      SignalsAreKnown(h, front);
      var m := Run(h, front);
      ConnectsAtMostOnce(m, e);
      if e.Resize? || e.ShowHide? {
        Signalled(m, e, Sizes(front), Visibilities(front));
      } else {
        assert Sizes(es) == Sizes(front) && Visibilities(es) == Visibilities(front);
        if Step(m, e).signals != m.signals {
          ConnectedHolds(m.signals, Sizes(front), Visibilities(front));
        }
      }
    }
  }

  /** Other events leave the signals alone, or connect a console that was not connected. */
  lemma ConnectsAtMostOnce(m: Host, e: Event)
    requires Enabled(m, e) && NotYetConnected(m) && (m.phase == Initialized ==> !m.waiting)
    ensures !e.Resize? && !e.ShowHide? && Step(m, e).signals != m.signals ==>
      !m.signals.connected && Step(m, e).signals == Connected(m.signals)
    ensures NotYetConnected(Step(m, e)) && (Step(m, e).phase == Initialized ==> !Step(m, e).waiting)
  {
  }

  lemma Signalled(m: Host, e: Event, sizes: seq<Size>, shows: seq<bool>)
    requires SignalsHold(m.signals, sizes, shows) && (e.Resize? || e.ShowHide?)
    ensures SignalsHold(Step(m, e).signals,
                        sizes + if e.Resize? then [e.size] else [], shows + if e.ShowHide? then [e.show] else [])
    ensures Step(m, e).signals.connected == m.signals.connected
  {
    assert sizes + [] == sizes && shows + [] == shows;
    if m.signals.connected {
      hide Latest;
      if e.Resize? {
        LatestGrows(m.signals.resizes, sizes, e.size);
      } else {
        LatestGrows(m.signals.shows, shows, e.show);
      }
    }
  }

  // ----------------------------------------------------------------------- connecting

  /** Start-up is over: it began and needed no answer, or resumed. */
  ghost predicate StartedUp(hasInput: bool, w: Window) {
    w.started && (!hasInput || w.resumed)
  }

  lemma ConnectStep(h: Host, w: Window, e: Event)
    requires PhaseAfter(h.hasInput, w, h.phase, h.waiting) && Enabled(h, e)
    requires h.signals.connected <==> h.hasSignals && StartedUp(h.hasInput, w)
    ensures var n := Step(h, e);
      n.hasSignals == h.hasSignals && (n.signals.connected <==> h.hasSignals && StartedUp(h.hasInput, NextWindow(w, e)))
  {
  }

  /** The console is connected exactly when there is a signal thread and start-up is over, well or not. */
  lemma {:induction false} ConnectedExactlyWhen(h: Host, es: seq<Event>)
    requires Fresh(h) && Possible(h, es)
    ensures Run(h, es).hasSignals == h.hasSignals
    ensures Run(h, es).signals.connected <==>
      h.hasSignals && FirstStart(es) < |es| && (!h.hasInput || FirstResume(es) < |es|)
  {
    if es != [] {
      hide PhaseAfter, Step, Enabled, ClosedInWindow;
      var front, e := es[..|es| - 1], es[|es| - 1];
      PhaseIsKnown(h, front);
      ConnectedExactlyWhen(h, front);
      assert es == front + [e];
      WindowNext(front, e);
      ConnectStep(Run(h, front), WindowOf(front), e);
    }
  }

  /** Where the console is connected. */
  ghost function ConnectedAt(h: Host, es: seq<Event>): nat {
    if h.hasInput then FirstResume(es) else FirstStart(es)
  }

  /** Of what came before connecting only the last, and all that came after. */
  ghost function Asked<T>(before: seq<T>, after: seq<T>): seq<T> {
    (if before == [] then [] else [before[|before| - 1]]) + after
  }

  /** What was asked for once the console is connected. */
  ghost predicate AskedFor(g: Signals, es: seq<Event>, c: nat)
    requires c <= |es|
  {
    && g.resizes == Asked(Sizes(es[..c]), Sizes(es[c..]))
    && g.shows == Asked(Visibilities(es[..c]), Visibilities(es[c..]))
  }

  lemma ReceivedNext(es: seq<Event>, e: Event)
    ensures Sizes(es + [e]) == Sizes(es) + if e.Resize? then [e.size] else []
    ensures Visibilities(es + [e]) == Visibilities(es) + if e.ShowHide? then [e.show] else []
  {
    assert (es + [e])[..|es|] == es;
  }

  lemma AskedNext(m: Host, front: seq<Event>, e: Event, c: nat)
    requires c < |front| && AskedFor(m.signals, front, c) && m.signals.connected
    requires Step(m, e).signals.connected && (e.Resize? || e.ShowHide? || Step(m, e).signals == m.signals)
    ensures AskedFor(Step(m, e).signals, front + [e], c)
  {
    hide Sizes, Visibilities, Connected;
    var es := front + [e];
    assert es[..c] == front[..c] && es[c..] == front[c..] + [e];
    ReceivedNext(front[c..], e);
  }

  lemma NothingReceived(e: Event)
    requires !e.Resize? && !e.ShowHide?
    ensures Sizes([e]) == [] && Visibilities([e]) == []
  {
    assert [e][..0] == [];
  }

  lemma StashAsked(g: Signals, sizes: seq<Size>, shows: seq<bool>)
    requires SignalsHold(g, sizes, shows) && !g.connected
    ensures Connected(g).resizes == Asked(sizes, []) && Connected(g).shows == Asked(shows, [])
  {
  }

  lemma AskedFirst(m: Host, front: seq<Event>, e: Event)
    requires SignalsHold(m.signals, Sizes(front), Visibilities(front)) && !m.signals.connected
    requires !e.Resize? && !e.ShowHide? && Step(m, e).signals == Connected(m.signals)
    ensures AskedFor(Step(m, e).signals, front + [e], |front|)
  {
    hide Sizes, Visibilities, Step, Connected, SignalsHold, Asked;
    var es := front + [e];
    assert es[..|front|] == front && es[|front|..] == [e];
    NothingReceived(e);
    StashAsked(m.signals, Sizes(front), Visibilities(front));
  }

  lemma ConnectedAtNext(h: Host, front: seq<Event>, e: Event)
    ensures ConnectedAt(h, front) <= |front|
    ensures var c := ConnectedAt(h, front + [e]);
      if ConnectedAt(h, front) < |front| then c == ConnectedAt(h, front) else |front| <= c <= |front| + 1
  {
    assert (front + [e])[..|front|] == front;
  }

  /** One event more and what is asked for with it. */
  lemma AskedStep(h: Host, m: Host, front: seq<Event>, e: Event)
    requires SignalsHold(m.signals, Sizes(front), Visibilities(front))
    requires Enabled(m, e) && NotYetConnected(m) && (m.phase == Initialized ==> !m.waiting)
    requires m.signals.connected ==>
      ConnectedAt(h, front) < |front| && AskedFor(m.signals, front, ConnectedAt(h, front))
    requires !m.signals.connected ==> ConnectedAt(h, front) == |front| || !Step(m, e).signals.connected
    requires Step(m, e).signals.connected ==> ConnectedAt(h, front + [e]) <= |front|
    requires m.signals.connected ==> Step(m, e).signals.connected
    ensures Step(m, e).signals.connected ==> AskedFor(Step(m, e).signals, front + [e], ConnectedAt(h, front + [e]))
  {
    hide AskedFor, SignalsHold, NotYetConnected, Connected, Step, Enabled, ConnectedAt, Sizes, Visibilities;
    ConnectsAtMostOnce(m, e);
    ConnectedAtNext(h, front, e);
    if m.signals.connected {
      AskedNext(m, front, e, ConnectedAt(h, front));
    } else if Step(m, e).signals.connected {
      NoSignal(m, e);
      AskedFirst(m, front, e);
    }
  }

  lemma ConnectedPlace(h: Host, es: seq<Event>)
    requires Fresh(h) && Possible(h, es)
    ensures Run(h, es).signals.connected ==> ConnectedAt(h, es) < |es|
    ensures h.hasSignals && !Run(h, es).signals.connected ==> ConnectedAt(h, es) == |es|
    ensures !h.hasSignals ==> !Run(h, es).signals.connected
  {
    hide Run, Possible;
    ConnectedExactlyWhen(h, es);
    ResumeAfterStart(h, es);
  }

  /** Start-up resumes only once it began. */
  lemma ResumeAfterStart(h: Host, es: seq<Event>)
    requires Fresh(h) && Possible(h, es)
    ensures FirstResume(es) < |es| ==> FirstStart(es) < |es|
  {
    hide Run, Possible, FirstStart, FirstResume, ClosedInWindow;
    PhaseIsKnown(h, es);
  }

  /** Before connecting the last size and visibility are kept and asked for then, afterwards each as it comes. */
  lemma {:induction false} AskedExactly(h: Host, es: seq<Event>)
    requires Fresh(h) && Possible(h, es)
    ensures Run(h, es).signals.connected ==>
      ConnectedAt(h, es) < |es| && AskedFor(Run(h, es).signals, es, ConnectedAt(h, es))
    ensures !Run(h, es).signals.connected ==> Run(h, es).signals.resizes == [] && Run(h, es).signals.shows == []
  {
    hide AskedFor, SignalsHold, NotYetConnected, Step, Enabled, Fresh, ConnectedAt, Sizes, Visibilities;
    ConnectedPlace(h, es);
    SignalsAreKnown(h, es);
    Unasked(Run(h, es).signals, Sizes(es), Visibilities(es));
    if es == [] {
      assert !Run(h, es).signals.connected by { NotConnectedFirst(h); }
    } else {
      var front, e := es[..|es| - 1], es[|es| - 1];
      assert es == front + [e];
      AskedExactly(h, front);
      SignalsAreKnown(h, front);
      ConnectedPlace(h, front);
      StaysConnected(Run(h, front), e);
      AskedStep(h, Run(h, front), front, e);
    }
  }

  lemma NotConnectedFirst(h: Host)
    requires Fresh(h)
    ensures !Run(h, []).signals.connected
  {
  }

  lemma StaysConnected(m: Host, e: Event)
    ensures m.signals.connected ==> Step(m, e).signals.connected
  {
  }

  lemma Unasked(g: Signals, sizes: seq<Size>, shows: seq<bool>)
    requires SignalsHold(g, sizes, shows)
    ensures !g.connected ==> g.resizes == [] && g.shows == []
  {
  }

  lemma NoSignal(m: Host, e: Event)
    requires !m.signals.connected && Step(m, e).signals.connected
    ensures !e.Resize? && !e.ShowHide?
  {
  }

  lemma NoneReceived()
    ensures Sizes([]) == [] && Visibilities([]) == []
  {
  }

  lemma {:induction false} SizesSplit(es: seq<Event>, c: nat)
    requires c <= |es|
    ensures Sizes(es) == Sizes(es[..c]) + Sizes(es[c..])
    ensures Visibilities(es) == Visibilities(es[..c]) + Visibilities(es[c..])
    decreases |es|
  {
    hide Sizes, Visibilities;
    if c == |es| {
      assert es[..c] == es && es[c..] == [];
      NoneReceived();
    } else {
      var front, e := es[..|es| - 1], es[|es| - 1];
      SizesSplit(front, c);
      assert es == front + [e] && front[..c] == es[..c] && es[c..] == front[c..] + [e];
      ReceivedNext(front, e);
      ReceivedNext(front[c..], e);
    }
  }

  /** Once start-up is over the size last asked for is the last one received, whenever it came; so with visibility. */
  lemma LastResizeWins(h: Host, es: seq<Event>)
    requires Fresh(h) && Possible(h, es) && h.hasSignals
    requires FirstStart(es) < |es| && (!h.hasInput || FirstResume(es) < |es|)
    ensures var asked, sizes := Run(h, es).signals.resizes, Sizes(es);
      sizes != [] ==> asked != [] && asked[|asked| - 1] == sizes[|sizes| - 1]
    ensures var asked, shows := Run(h, es).signals.shows, Visibilities(es);
      shows != [] ==> asked != [] && asked[|asked| - 1] == shows[|shows| - 1]
  {
    hide Sizes, Visibilities, Fresh, Possible, Run;
    ConnectedExactlyWhen(h, es);
    AskedExactly(h, es);
    SizesSplit(es, ConnectedAt(h, es));
  }

  // ---------------------------------------------------------------------- the objects

  class SignalInput {
    var connected: bool
    var earlyResize: Option<Size>
    var earlyShow: Option<bool>
    ghost var resizes: seq<Size>
    ghost var shows: seq<bool>

    constructor ()
      ensures State() == Signals(false, None, None, [], [])
    {
      connected, earlyResize, earlyShow, resizes, shows := false, None, None, [], [];
    }

    ghost function State(): Signals
      reads this
    {
      Signals(connected, earlyResize, earlyShow, resizes, shows)
    }

    method DoResizeWindow(size: Size)
      modifies this
      ensures State() == Resized(old(State()), size)
    {
      if !connected {
        earlyResize := Some(size);
        return;
      }
      resizes := resizes + [size];
    }

    method DoShowHide(show: bool)
      modifies this
      ensures State() == Shown(old(State()), show)
    {
      if !connected {
        earlyShow := Some(show);
        return;
      }
      shows := shows + [show];
    }

    method ConnectConsole()
      modifies this
      ensures State() == Connected(old(State()))
    {
      connected := true;
      if earlyResize.Some? {
        DoResizeWindow(earlyResize.value);
      }
      if earlyShow.Some? {
        DoShowHide(earlyShow.value);
      }
    }
  }

  class VtIo {
    var phase: Phase
    var closeSent: bool
    const hasInput: bool
    const signals: SignalInput?
    ghost var waiting: bool
    ghost var closes: nat

    constructor (hasInput: bool, hasSignals: bool)
      ensures Fresh(State()) && (signals != null ==> fresh(signals))
      ensures this.hasInput == hasInput && (signals != null <==> hasSignals)
    {
      phase, closeSent, this.hasInput, waiting, closes := Initialized, false, hasInput, false, 0;
      if hasSignals {
        var g := new SignalInput();
        signals := g;
      } else {
        signals := null;
      }
    }

    ghost function State(): Host
      reads this, signals
    {
      Host(phase, waiting, closeSent, closes, hasInput, signals != null,
           if signals != null then signals.State() else Signals(false, None, None, [], []))
    }

    method SendCloseEvent()
      modifies this
      ensures State() == Step(old(State()), CloseEvent)
    {
      if phase == Starting {
        phase := StartupFailed;
        return;
      }
      var sent := closeSent;
      closeSent := true;
      if !sent {
        closes := closes + 1;
      }
    }

    /** Start-up as far as its wait; `more` says that it will resume. */
    method StartIfNeeded(launch: Launch) returns (more: bool)
      modifies this, signals
      ensures State() == Step(old(State()), Start(launch))
      ensures more <==> old(phase) == Initialized && hasInput && launch != Threw
    {
      if phase != Initialized {
        return false;
      }
      phase := Starting;
      if hasInput {
        if launch == Threw {
          return false;
        }
        if launch == Broke {
          SendCloseEvent();
        }
        waiting := true;
        return true;
      }
      var _ := FinishStart();
      more := false;
    }

    /** The rest of start-up, with the lock taken again. */
    method FinishStart() returns (ok: bool)
      modifies this, signals
      ensures State() == Finished(old(State()).(waiting := false))
      ensures ok <==> old(phase) == Starting
    {
      waiting := false;
      if signals != null {
        signals.ConnectConsole();
      }
      if phase != Starting {
        return false;
      }
      phase := Running;
      ok := true;
    }
  }
}
