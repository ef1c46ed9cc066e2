/**
 The writers that send text to the hosting terminal. Writers nest; the text of an outermost session
 is collected in a back buffer and handed to the pipe as one frame when the last writer closes.
 */
module VtWriter {
  const SAVE_CURSOR: string := "\U{1B}7"
  const RESTORE_CURSOR: string := "\U{1B}8"

  /** What the pipe answers to a frame. */
  datatype Outcome = Done | Pending | Broken | Failed

  /**
   What can happen to the writers. A closing writer was submitted or not; `waited` is whether an
   overlapped write still pending then turns out well, `outcome` what a write made then returns.
   */
  datatype Event =
    | Open
    | Backup
    | Write(text: string)
    | Close(submitted: bool, waited: bool, outcome: Outcome)

  /** The fields; `sent` are the frames handed to the pipe, `closes` the close events raised. */
  datatype Io = Io(corked: int, front: string, back: string, restore: bool, tainted: bool,
                   pending: bool, open: bool, sent: seq<string>, closes: nat)

  // ---------------------------------------------------------------------- one event

  function WithRestore(s: Io): Io {
    if s.restore then s.(restore := false, back := s.back + RESTORE_CURSOR) else s
  }

  function Waited(s: Io, ok: bool): Io {
    if !s.pending then s
    else if ok then s.(pending := false)
    else s.(pending := false, open := false, closes := s.closes + 1)
  }

  function Transmitted(s: Io, outcome: Outcome): Io {
    var t := s.(sent := s.sent + [s.front]);
    match outcome
    case Broken => t.(open := false, closes := t.closes + 1)
    case Pending => t.(pending := true)
    case Done => t
    case Failed => t
  }

  function Flushed(s: Io, ok: bool, outcome: Outcome): Io {
    var minSize := if s.restore then 4 else 0;
    var w := Waited(WithRestore(s), ok);
    var t := w.(front := w.back, back := "");
    if t.tainted then t.(tainted := false)
    else if |t.front| <= minSize || !t.open then t
    else Transmitted(t, outcome)
  }

  function Step(s: Io, e: Event): Io {
    match e
    case Open => s.(corked := s.corked + 1)
    case Backup => if s.restore then s else s.(restore := true, back := s.back + SAVE_CURSOR)
    case Write(text) => s.(back := s.back + text)
    case Close(submitted, ok, outcome) =>
      var t := s.(corked := s.corked - 1, tainted := s.tainted || !submitted);
      if t.corked <= 0 then Flushed(t, ok, outcome) else t
  }

  function Run(s: Io, es: seq<Event>): Io {
    if es == [] then s else Step(Run(s, es[..|es| - 1]), es[|es| - 1])
  }

  // ------------------------------------------------------------------------ sessions

  function Depth(es: seq<Event>): int {
    if es == [] then 0
    else
      var d := Depth(es[..|es| - 1]);
      match es[|es| - 1]
      case Open => d + 1
      case Close(_, _, _) => d - 1
      case _ => d
  }

  /** Some writer is open after each of the events. */
  ghost predicate Unfinished(es: seq<Event>) {
    forall k :: 0 < k <= |es| ==> Depth(es[..k]) > 0
  }

  /** An outermost session: from the first writer's opening to the last one's closing. */
  ghost predicate Session(es: seq<Event>) {
    |es| > 1 && Unfinished(es[..|es| - 1]) && Depth(es) == 0
  }

  /** No writer closes that is not open, and writing needs an open writer. */
  ghost predicate WellBracketed(es: seq<Event>) {
    && (forall k :: 0 <= k <= |es| ==> Depth(es[..k]) >= 0)
    && (forall k :: 0 <= k < |es| && (es[k].Backup? || es[k].Write?) ==> Depth(es[..k]) > 0)
  }

  /** Everything written, in order. */
  function Texts(es: seq<Event>): string {
    if es == [] then ""
    else Texts(es[..|es| - 1]) + if es[|es| - 1].Write? then es[|es| - 1].text else ""
  }

  ghost predicate Saved(es: seq<Event>) {
    Backup in es
  }

  ghost predicate Tainted(es: seq<Event>) {
    exists e :: e in es && e.Close? && !e.submitted
  }

  /** Where the cursor is first saved, or the end. */
  function FirstBackup(es: seq<Event>): (i: nat)
    ensures i <= |es| && (i < |es| ==> es[i] == Backup) && forall k :: 0 <= k < i ==> es[k] != Backup
  {
    if es == [] then 0
    else
      var i := FirstBackup(es[..|es| - 1]);
      if i < |es| - 1 || es[|es| - 1] == Backup then i else i + 1
  }

  /** The text with the one save where the cursor was first backed up. */
  ghost function Body(es: seq<Event>): string {
    var i := FirstBackup(es);
    Texts(es[..i]) + (if Saved(es) then SAVE_CURSOR else "") + Texts(es[i..])
  }

  /** The frame of a session: nothing if a writer was not submitted or nothing was written. */
  ghost function Frame(es: seq<Event>): seq<string> {
    if Tainted(es) || Texts(es) == "" then []
    else [Body(es) + if Saved(es) then RESTORE_CURSOR else ""]
  }

  function Join(ss: seq<seq<Event>>): seq<Event> {
    if ss == [] then [] else Join(ss[..|ss| - 1]) + ss[|ss| - 1]
  }

  ghost function Frames(ss: seq<seq<Event>>): seq<string> {
    if ss == [] then [] else Frames(ss[..|ss| - 1]) + Frame(ss[|ss| - 1])
  }

  ghost predicate AllSessions(ss: seq<seq<Event>>) {
    forall k :: 0 <= k < |ss| ==> Session(ss[k])
  }

  /** Every write is handed over: none breaks the pipe and every overlapped one completes; a failed one is lost. */
  ghost predicate WorkingPipe(es: seq<Event>) {
    forall e :: e in es && e.Close? ==> e.waited && e.outcome != Broken
  }

  // ----------------------------------------------------------------- runs and sessions

  lemma {:induction false} DepthAppend(a: seq<Event>, b: seq<Event>)
    ensures Depth(a + b) == Depth(a) + Depth(b)
  {
    if b == [] {
      assert a + b == a;
    } else {
      DepthAppend(a, b[..|b| - 1]);
      assert (a + b)[..|a + b| - 1] == a + b[..|b| - 1];
    }
  }

  lemma {:induction false} RunAppend(s: Io, a: seq<Event>, b: seq<Event>)
    ensures Run(s, a + b) == Run(Run(s, a), b)
  {
    if b == [] {
      assert a + b == a;
    } else {
      RunAppend(s, a, b[..|b| - 1]);
      assert (a + b)[..|a + b| - 1] == a + b[..|b| - 1];
    }
  }

  lemma {:induction false} TextsAppend(a: seq<Event>, b: seq<Event>)
    ensures Texts(a + b) == Texts(a) + Texts(b)
  {
    hide Texts;
    if b == [] {
      assert a + b == a && Texts(b) == "" by { NoTexts(); }
    } else {
      var front, e := b[..|b| - 1], b[|b| - 1];
      TextsAppend(a, front);
      assert a + b == a + front + [e] && b == front + [e];
      TextsLast(a + front, e);
      TextsLast(front, e);
    }
  }

  lemma NoTexts()
    ensures Texts([]) == ""
  {
  }

  lemma TextsLast(es: seq<Event>, e: Event)
    ensures Texts(es + [e]) == Texts(es) + if e.Write? then e.text else ""
  {
    assert (es + [e])[..|es|] == es;
  }

  lemma {:induction false} SessionsAreLevel(ss: seq<seq<Event>>)
    requires AllSessions(ss)
    ensures Depth(Join(ss)) == 0
  {
    if ss != [] {
      SessionsAreLevel(ss[..|ss| - 1]);
      DepthAppend(Join(ss[..|ss| - 1]), ss[|ss| - 1]);
    }
  }

  /** One more event finishes an unfinished session or leaves it unfinished. */
  lemma OneMore(rest: seq<Event>, e: Event)
    requires Unfinished(rest) && Depth(rest + [e]) >= 0
    requires e.Backup? || e.Write? ==> rest != []
    ensures if Depth(rest + [e]) == 0 then Session(rest + [e]) else Unfinished(rest + [e])
  {
    var more := rest + [e];
    assert more[..|rest|] == rest && more[..|more|] == more && rest[..|rest|] == rest;
    forall k | 0 < k <= |rest| ensures more[..k] == rest[..k] {}
    assert Depth(more) == Depth(rest) + (if e.Open? then 1 else if e.Close? then -1 else 0);
  }

  lemma WellBracketedPrefix(es: seq<Event>)
    requires WellBracketed(es) && es != []
    ensures WellBracketed(es[..|es| - 1]) && Depth(es) >= 0
    ensures es[|es| - 1].Backup? || es[|es| - 1].Write? ==> Depth(es[..|es| - 1]) > 0
  {
    var front := es[..|es| - 1];
    assert es[..|es|] == es;
    forall k | 0 <= k <= |front| ensures front[..k] == es[..k] {}
  }

  /** Every well-bracketed run is a row of sessions followed by one that has not finished. */
  lemma {:induction false} RunsAreSessions(es: seq<Event>) returns (ss: seq<seq<Event>>, rest: seq<Event>)
    requires WellBracketed(es)
    ensures AllSessions(ss) && Unfinished(rest) && es == Join(ss) + rest
    decreases |es|
  {
    hide WellBracketed, Unfinished, Session;
    if es == [] {
      ss, rest := [], [];
      NothingUnfinished();
    } else {
      var front, e := es[..|es| - 1], es[|es| - 1];
      WellBracketedPrefix(es);
      ss, rest := RunsAreSessions(front);
      SessionsAreLevel(ss);
      DepthAppend(Join(ss), rest);
      DepthAppend(Join(ss), rest + [e]);
      assert es == Join(ss) + (rest + [e]);
      OneMore(rest, e);
      if Depth(rest + [e]) == 0 {
        assert (ss + [rest + [e]])[..|ss|] == ss;
        ss, rest := ss + [rest + [e]], [];
        NothingUnfinished();
      } else {
        rest := rest + [e];
      }
    }
  }

  lemma NothingUnfinished()
    ensures Unfinished([])
  {
  }

  // ------------------------------------------------------------------ within a session

  /** Between sessions: nothing open, nothing collected. */
  predicate Idle(s: Io) {
    s.corked == 0 && s.back == "" && !s.restore && !s.tainted
  }

  lemma BodySplit(es: seq<Event>)
    ensures Saved(es) <==> FirstBackup(es) < |es|
    ensures !Saved(es) ==> Body(es) == Texts(es)
  {
    var i := FirstBackup(es);
    if i == |es| {
      assert es[..i] == es && es[i..] == [];
    }
  }

  lemma TextsOne(e: Event)
    ensures Texts([e]) == if e.Write? then e.text else ""
  {
    assert [e][..0] == [];
  }

  lemma BodyGrowsSaved(es: seq<Event>, e: Event)
    requires Saved(es)
    ensures Body(es + [e]) == Body(es) + Texts([e])
  {
    hide Texts;
    var all := es + [e];
    var i := FirstBackup(es);
    BodySplit(es);
    assert all[..|all| - 1] == es;
    assert FirstBackup(all) == i && all[..i] == es[..i] && all[i..] == es[i..] + [e];
    TextsAppend(es[i..], [e]);
    assert Saved(all) by { assert all[i] == Backup; }
  }

  lemma BodyGrows(es: seq<Event>, e: Event)
    ensures Saved(es + [e]) <==> Saved(es) || e == Backup
    ensures Body(es + [e]) == Body(es) + (if e == Backup && !Saved(es) then SAVE_CURSOR else Texts([e]))
  {
    var all := es + [e];
    assert all[..|all| - 1] == es;
    TextsOne(e);
    BodySplit(es);
    if Saved(es) {
      BodyGrowsSaved(es, e);
    } else if e == Backup {
      assert all[..|es|] == es && all[|es|..] == [e] && FirstBackup(all) == |es|;
    } else {
      BodySplit(all);
      TextsAppend(es, [e]);
    }
  }

  /** An open session collects its text, and nothing reaches the pipe. */
  lemma {:induction false} NothingSentWhileOpen(s: Io, es: seq<Event>)
    requires Idle(s) && Unfinished(es)
    ensures Run(s, es) == s.(corked := Depth(es), back := Body(es), restore := Saved(es), tainted := Tainted(es))
  {
    hide Body, Saved, Tainted, Flushed, Unfinished;
    if es != [] {
      var front, e := es[..|es| - 1], es[|es| - 1];
      UnfinishedPrefix(es);
      NothingSentWhileOpen(s, front);
      assert es == front + [e];
      BodyGrows(front, e);
      TextsOne(e);
      TaintGrows(front, e);
    } else {
      NothingCollected();
    }
  }

  lemma NothingCollected()
    ensures Body([]) == "" && !Saved([]) && !Tainted([])
  {
  }

  lemma UnfinishedPrefix(es: seq<Event>)
    requires Unfinished(es) && es != []
    ensures Unfinished(es[..|es| - 1]) && Depth(es) > 0
  {
    var front := es[..|es| - 1];
    assert es[..|es|] == es;
    forall k | 0 < k <= |front| ensures front[..k] == es[..k] {}
  }

  lemma TaintGrows(es: seq<Event>, e: Event)
    ensures Tainted(es + [e]) <==> Tainted(es) || (e.Close? && !e.submitted)
  {
    if Tainted(es) {
      var x :| x in es && x.Close? && !x.submitted;
      assert x in es + [e];
    }
    if e.Close? && !e.submitted {
      assert e in es + [e];
    }
  }

  lemma BodyLength(es: seq<Event>)
    ensures |Body(es)| == |Texts(es)| + if Saved(es) then 2 else 0
  {
    var i := FirstBackup(es);
    TextsAppend(es[..i], es[i..]);
    assert es == es[..i] + es[i..];
  }

  /** The pipe still takes frames after the events of a session. */
  ghost predicate StaysOpen(s: Io, e: Event)
    requires e.Close?
  {
    s.open && (s.pending ==> e.waited)
  }

  /** What a flush of the collected text hands to the pipe. */
  lemma FlushSends(s: Io, ok: bool, outcome: Outcome)
    requires s.corked == 0 && (s.restore ==> |s.back| >= 2)
    ensures var r := Flushed(s, ok, outcome);
      && Idle(r) && (r.open ==> s.open && (s.pending ==> ok))
      && r.sent == s.sent +
         if !s.tainted && |s.back| > (if s.restore then 2 else 0) && s.open && (s.pending ==> ok)
         then [s.back + if s.restore then RESTORE_CURSOR else ""] else []
  {
    assert s.back + "" == s.back;
  }

  /** A finished session hands its frame to an open pipe, whole, and leaves nothing behind. */
  lemma SessionSendsOneFrame(s: Io, es: seq<Event>)
    requires Idle(s) && Session(es)
    ensures es[|es| - 1].Close?
    ensures var r := Run(s, es);
      Idle(r) && r.sent == s.sent + if StaysOpen(s, es[|es| - 1]) then Frame(es) else []
    ensures Run(s, es).open ==> StaysOpen(s, es[|es| - 1])
  {
    hide Texts, Body;
    var front, e := es[..|es| - 1], es[|es| - 1];
    assert es == front + [e] && front[..|front|] == front;
    assert Depth(front) > 0;
    NothingSentWhileOpen(s, front);
    BodyGrows(front, e);
    TextsOne(e);
    TaintGrows(front, e);
    BodyLength(front);
    TextsAppend(front, [e]);
    assert Texts(es) == Texts(front) && Body(es) == Body(front);
    FlushSends(s.(back := Body(es), restore := Saved(es), tainted := Tainted(es)), e.waited, e.outcome);
  }

  /**
   For every row of sessions the frames handed to the pipe are a prefix of the sessions' frames in
   order, and on a working pipe they are all of them.
   */
  lemma {:induction false} SessionsSendTheirFrames(s: Io, ss: seq<seq<Event>>)
    requires Idle(s) && AllSessions(ss)
    ensures var r := Run(s, Join(ss));
      && Idle(r) && (r.open ==> s.open)
      && r.sent <= s.sent + Frames(ss)
      && (r.open ==> r.sent == s.sent + Frames(ss))
  {
    hide Session, Frame, Idle, Step;
    if ss != [] {
      var front, last := ss[..|ss| - 1], ss[|ss| - 1];
      SessionsSendTheirFrames(s, front);
      RunAppend(s, Join(front), last);
      var m := Run(s, Join(front));
      SessionSendsOneFrame(m, last);
      Longer(m.sent, s.sent + Frames(front), Frame(last));
      assert s.sent + Frames(ss) == s.sent + Frames(front) + Frame(last);
    }
  }

  lemma Longer(a: seq<string>, b: seq<string>, c: seq<string>)
    requires a <= b
    ensures a <= b + c
  {
  }

  lemma {:induction false} WorkingPipeStaysOpen(s: Io, es: seq<Event>)
    requires s.open && WorkingPipe(es)
    ensures Run(s, es).open
  {
    if es != [] {
      var e := es[|es| - 1];
      WorkingPipeStaysOpen(s, es[..|es| - 1]);
      assert e in es;
    }
  }

  /**
   Every well-bracketed run splits into finished sessions and an unfinished one. The pipe has been
   handed the finished sessions' frames in order, and nothing of the unfinished one. A pipe that
   breaks on the way has been handed the first of them.
   */
  lemma RunsSendWholeFrames(s: Io, es: seq<Event>) returns (ss: seq<seq<Event>>, rest: seq<Event>)
    requires Idle(s) && WellBracketed(es)
    ensures AllSessions(ss) && Unfinished(rest) && es == Join(ss) + rest
    ensures Run(s, es).sent <= s.sent + Frames(ss)
    ensures s.open && WorkingPipe(es) ==> Run(s, es).sent == s.sent + Frames(ss)
  {
    hide WellBracketed, AllSessions, Unfinished;
    ss, rest := RunsAreSessions(es);
    SessionsSendTheirFrames(s, ss);
    RunAppend(s, Join(ss), rest);
    NothingSentWhileOpen(Run(s, Join(ss)), rest);
    if s.open && WorkingPipe(es) {
      WorkingPipeStaysOpen(s, es);
    }
  }

  /** What becomes of the pipe when the text `back` is flushed. */
  lemma FlushFate(s: Io, ok: bool, outcome: Outcome)
    requires Sound(s) && s.corked == 0 && (s.restore ==> |s.back| >= 2)
    ensures var r := Flushed(s, ok, outcome);
      var usable := s.open && (s.pending ==> ok);
      var handed := !s.tainted && |s.back| > (if s.restore then 2 else 0) && usable;
      && (r.open <==> usable && !(handed && outcome == Broken))
      && (r.pending <==> handed && outcome == Pending)
      && (handed ==> r.front == s.back + if s.restore then RESTORE_CURSOR else "")
      && r.closes == s.closes + if s.open && !r.open then 1 else 0
  {
    assert s.back + "" == s.back;
  }

  /**
   After a session the pipe is lost exactly when a pending write failed or this one broke it, which is told
   once; a write is pending exactly when a frame was handed over and not yet taken, and then its text is
   what the front buffer holds.
   */
  lemma SessionFate(s: Io, es: seq<Event>)
    requires Idle(s) && Sound(s) && Session(es) && es[|es| - 1].Close?
    ensures var r, e := Run(s, es), es[|es| - 1];
      var handed := StaysOpen(s, e) && Frame(es) != [];
      && (r.open <==> StaysOpen(s, e) && !(handed && e.outcome == Broken))
      && (r.pending <==> handed && e.outcome == Pending)
      && (handed ==> [r.front] == Frame(es))
      && r.closes == s.closes + if s.open && !r.open then 1 else 0
  {
    hide Texts, Body, Flushed, Unfinished, Depth, Run;
    var front, e := es[..|es| - 1], es[|es| - 1];
    SessionFlushes(s, es);
    BodyLength(es);
    FlushFate(s.(back := Body(es), restore := Saved(es), tainted := Tainted(es)), e.waited, e.outcome);
  }

  lemma SessionFlushes(s: Io, es: seq<Event>)
    requires Idle(s) && Session(es) && es[|es| - 1].Close?
    ensures var e := es[|es| - 1];
      Run(s, es) == Flushed(s.(back := Body(es), restore := Saved(es), tainted := Tainted(es)), e.waited, e.outcome)
  {
    hide Texts, Body, Flushed;
    var front, e := es[..|es| - 1], es[|es| - 1];
    assert es == front + [e] && front[..|front|] == front;
    assert Depth(front) > 0;
    NothingSentWhileOpen(s, front);
    BodyGrows(front, e);
    TextsOne(e);
    TaintGrows(front, e);
    assert Body(front) + "" == Body(front);
    assert Run(s, es) == Step(Run(s, front), e);
  }

  /** Only an open pipe has a write pending, and losing the pipe raises one close event, once. */
  predicate Sound(s: Io) {
    (s.pending ==> s.open) && s.closes == if s.open then 0 else 1
  }

  lemma {:induction false} CloseRaisedOnce(s: Io, es: seq<Event>)
    requires Sound(s)
    ensures Sound(Run(s, es))
  {
    if es != [] {
      CloseRaisedOnce(s, es[..|es| - 1]);
    }
  }

  // --------------------------------------------------------------------- the objects

  class VtIo {
    var corked: int
    var front: string
    var back: string
    var restoreCursor: bool
    var tainted: bool
    var pending: bool
    var open: bool
    ghost var sent: seq<string>
    ghost var closes: nat
    /** The text the pipe is still reading while a write is pending. */
    ghost var inFlight: string

    constructor ()
      ensures Valid() && State() == Io(0, "", "", false, false, false, true, [], 0)
    {
      corked, front, back := 0, "", "";
      restoreCursor, tainted, pending, open := false, false, false, true;
      sent, closes, inFlight := [], 0, "";
    }

    ghost function State(): Io
      reads this
    {
      Io(corked, front, back, restoreCursor, tainted, pending, open, sent, closes)
    }

    /** The front buffer is what was handed over for as long as the pipe may read it. */
    ghost predicate Valid()
      reads this
    {
      Sound(State()) && (pending ==> inFlight == front)
    }

    method AwaitPending(ok: bool)
      requires Valid()
      modifies this`pending, this`open, this`closes
      ensures Valid() && !pending && State() == Waited(old(State()), ok)
    {
      if pending {
        pending := false;
        if !ok {
          open := false;
          closes := closes + 1;
        }
      }
    }

    /** Buffers change places only when no write is pending. */
    method SwapBuffers()
      requires Valid() && !pending
      modifies this`front, this`back
      ensures Valid() && front == old(back) && back == ""
    {
      front := "";
      front, back := back, front;
    }

    method Transmit(outcome: Outcome)
      requires Valid() && !pending && open
      modifies this`pending, this`open, this`sent, this`closes, this`inFlight
      ensures Valid() && State() == Transmitted(old(State()), outcome)
      ensures inFlight == front
    {
      sent := sent + [front];
      inFlight := front;
      match outcome
      case Broken =>
        open := false;
        closes := closes + 1;
      case Pending =>
        pending := true;
      case Done =>
      case Failed =>
    }

    method FlushNow(ok: bool, outcome: Outcome)
      requires Valid()
      modifies this
      ensures Valid() && State() == Flushed(old(State()), ok, outcome)
    {
      var minSize := 0;
      if restoreCursor {
        minSize := 4;
        restoreCursor := false;
        back := back + RESTORE_CURSOR;
      }
      AwaitPending(ok);
      SwapBuffers();
      if tainted {
        tainted := false;
        return;
      }
      if |front| <= minSize {
        return;
      }
      if !open {
        return;
      }
      Transmit(outcome);
    }

    method Uncork(ok: bool, outcome: Outcome)
      requires Valid()
      modifies this
      ensures Valid()
      ensures var s := old(State()).(corked := old(corked) - 1);
        State() == if s.corked <= 0 then Flushed(s, ok, outcome) else s
    {
      corked := corked - 1;
      if corked <= 0 {
        FlushNow(ok, outcome);
      }
    }
  }

  /** A writer holds its terminal until it is submitted or destroyed; a writer may hold none. */
  class Writer {
    var io: VtIo?

    constructor (target: VtIo?)
      requires target != null ==> target.Valid()
      modifies target
      ensures io == target
      ensures io != null ==> io.Valid() && io.State() == Step(old(target.State()), Open)
    {
      io := target;
      if target != null {
        target.corked := target.corked + 1;
      }
    }

    method Submit(ok: bool, outcome: Outcome)
      requires io != null && io.Valid()
      modifies this, io
      ensures io == null
      ensures old(io).Valid() && old(io).State() == Step(old(io.State()), Close(true, ok, outcome))
    {
      var target := io;
      io := null;
      target.Uncork(ok, outcome);
    }

    /** The destructor: a writer that was never submitted spoils its session. */
    method Destroy(ok: bool, outcome: Outcome)
      requires io != null ==> io.Valid()
      modifies this, io
      ensures io == null
      ensures old(io) != null ==>
        old(io).Valid() && old(io).State() == Step(old(io.State()), Close(false, ok, outcome))
    {
      var target := io;
      io := null;
      if target != null {
        target.tainted := true;
        target.Uncork(ok, outcome);
      }
    }

    method BackupCursor()
      requires io != null && io.Valid()
      modifies io
      ensures io.Valid() && io.State() == Step(old(io.State()), Backup)
    {
      if !io.restoreCursor {
        io.restoreCursor := true;
        io.back := io.back + SAVE_CURSOR;
      }
    }

    method WriteUTF8(text: string)
      requires io != null && io.Valid()
      modifies io
      ensures io.Valid() && io.State() == Step(old(io.State()), Write(text))
    {
      io.back := io.back + text;
    }
  }
}
