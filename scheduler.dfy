/** The draw scheduler and the bar lifecycle of src/lib.rs as functions
    over the manager's state: `ManagerInner::{is_terminal, clear_existing,
    draw_inner, mark_redraw, draw, suspend}`, the `Manager` builders and
    `create_bar`, the `Bar` handle operations, and the two `Drop`s. Each
    public call is one step; the clock reading `now` (nanoseconds) is a
    parameter. The classes in manager.dfy are proved to follow these
    functions. */
module Scheduler {
  import opened Strings
  import opened Template
  import opened BarRender
  import opened Registry

  /** `UP_ANSI` and `CLEAR_ANSI`. */
  const UP := "\U{1B}[F"
  const CLEAR := "\r\U{1B}[K"

  type Columns = c: nat | c > 0 witness 80

  /** The output stream: whether it is a terminal and how many columns it
      has (the width query is not part of this model). */
  datatype Sink = Sink(isTerminal: bool, columns: Columns)

  /** `ManagerInner`. `out` is everything written to the sink so far;
      `alive` is false once the manager has been dropped, when no `Bar`
      handle can reach it any more. */
  datatype ManagerState = ManagerState(
    states: seq<Entry>,
    ansi: Option<bool>,
    interval: nat,
    sink: Sink,
    ticker: bool,
    nextId: nat,
    lastDraw: int,
    lastLines: nat,
    needRedraw: bool,
    out: string,
    alive: bool)

  /** Ids in ascending order and all below the next id to hand out. */
  predicate Inv(m: ManagerState)
  {
    Ordered(m.states) && forall i :: 0 <= i < |m.states| ==> m.states[i].id < m.nextId
  }

  /** `Manager::new`: no bars, ids from 0, and a last draw one interval
      ago so that the first unforced draw is not throttled. */
  function New(interval: nat, now: nat, sink: Sink): ManagerState
  {
    ManagerState([], None, interval, sink, false, 0, now - interval, 0, false, "", true)
  }

  /** `is_terminal`: the forced ANSI choice if any, else the sink's own. */
  function IsTerminal(m: ManagerState): bool
  {
    match m.ansi
    case None => m.sink.isTerminal
    case Some(force) => force
  }

  /** `last_lines` copies of "cursor up, clear line". */
  function Erase(n: nat): string
  {
    RepeatStr(UP + CLEAR, n)
  }

  /** `clear_existing`. */
  function ClearExisting(m: ManagerState): ManagerState
  {
    m.(out := m.out + Erase(m.lastLines))
  }

  /** `draw_inner`: writes the selected bars, clears their dirty flags and,
      in terminal mode, records the rows written. */
  function DrawInner(m: ManagerState, terminal: bool, now: nat): ManagerState
  {
    m.(out := m.out + Frame(m.states, terminal, now),
       states := Cleared(m.states, terminal),
       lastLines := if terminal then FrameRows(m.states, terminal, now, m.sink.columns) else m.lastLines)
  }

  /** `draw_inner` described field by field. */
  lemma DrawInnerFields(m: ManagerState, terminal: bool, now: nat, r: ManagerState)
    requires r.out == m.out + Frame(m.states, terminal, now)
    requires r.states == Cleared(m.states, terminal)
    requires terminal ==> r.lastLines == FrameRows(m.states, terminal, now, m.sink.columns)
    requires !terminal ==> r.lastLines == m.lastLines
    requires r.ansi == m.ansi && r.interval == m.interval && r.sink == m.sink && r.ticker == m.ticker
    requires r.nextId == m.nextId && r.lastDraw == m.lastDraw && r.needRedraw == m.needRedraw
    requires r.alive == m.alive
    ensures r == DrawInner(m, terminal, now)
  {
  }

  function MarkRedraw(m: ManagerState): ManagerState
  {
    m.(needRedraw := true)
  }

  /** The three gates of `draw`, all open. */
  predicate Passes(m: ManagerState, force: bool, now: nat)
  {
    (force || !m.ticker) && (force || Since(now, m.lastDraw) >= m.interval) && m.needRedraw
  }

  /** `ManagerInner::draw`. */
  function Draw(m: ManagerState, force: bool, now: nat): ManagerState
  {
    if !force && m.ticker then m
    else if !force && Since(now, m.lastDraw) < m.interval then m
    else if !m.needRedraw then m
    else
      var m1 := m.(needRedraw := false);
      var terminal := IsTerminal(m1);
      var m2 := if terminal && |m1.states| > 0 then ClearExisting(m1) else m1;
      DrawInner(m2, terminal, now).(lastDraw := now)
  }

  /** `suspend` with a closure that writes `written` to the sink. */
  function Suspend(m: ManagerState, written: string, now: nat): ManagerState
  {
    var terminal := IsTerminal(m);
    var m1 := if terminal then ClearExisting(m) else m;
    var m2 := m1.(out := m1.out + written);
    if terminal then DrawInner(m2, true, now) else m2
  }

  /** `with_stdout`, `with_stderr`, `with_file`. */
  function WithSink(m: ManagerState, sink: Sink): ManagerState
  {
    MarkRedraw(m.(sink := sink))
  }

  function ForceAnsi(m: ManagerState, force: bool): ManagerState
  {
    MarkRedraw(m.(ansi := Some(force)))
  }

  function AutoAnsi(m: ManagerState): ManagerState
  {
    MarkRedraw(m.(ansi := None))
  }

  /** `set_ticker`: only whether a ticker exists matters to `draw`. */
  function SetTicker(m: ManagerState, on: bool): ManagerState
  {
    m.(ticker := on)
  }

  /** The state `create_bar` makes for a new bar. */
  function NewBar(len: u64, message: string, template: string, visible: bool, now: nat): BarState
  {
    BarState(len, 0, message, Template(Compile(template)), now, visible, true)
  }

  /** The registry right after `create_bar` inserts, before its draw. */
  function Registered(m: ManagerState, len: u64, message: string, template: string, visible: bool, now: nat): ManagerState
  {
    m.(nextId := m.nextId + 1,
       states := Insert(m.states, Entry(m.nextId, NewBar(len, message, template, visible, now))))
  }

  /** `create_bar`: the new bar gets id `nextId`; a visible one forces a draw. */
  function CreateBar(m: ManagerState, len: u64, message: string, template: string, visible: bool, now: nat): ManagerState
  {
    var m1 := Registered(m, len, message, template, visible, now);
    if visible then Draw(MarkRedraw(m1), true, now) else m1
  }

  /** `get_manager_and_state`: the bar's state while the manager lives and
      the bar is registered. */
  function Handle(m: ManagerState, id: nat): Option<BarState>
  {
    if m.alive then Get(m.states, id) else None
  }

  /** The field setters of `Bar`, all followed by an unforced draw. */
  datatype Change =
    | Inc(n: u64)
    | SetPos(pos: u64)
    | SetLen(len: u64)
    | SetMessage(message: string)
    | SetTemplate(template: string)

  /** `inc` must not overflow u64. */
  predicate Fits(st: BarState, c: Change)
  {
    c.Inc? ==> st.pos + c.n < U64_LIMIT
  }

  predicate CanApply(m: ManagerState, id: nat, c: Change)
  {
    match Handle(m, id)
    case Some(st) => Fits(st, c)
    case None => true
  }

  function Apply(st: BarState, c: Change): BarState
    requires Fits(st, c)
  {
    match c
    case Inc(n) => st.(pos := st.pos + n, needRedraw := true)
    case SetPos(pos) => st.(pos := pos, needRedraw := true)
    case SetLen(len) => st.(len := len, needRedraw := true)
    case SetMessage(message) => st.(message := message, needRedraw := true)
    case SetTemplate(template) => st.(template := Template(Compile(template)), needRedraw := true)
  }

  /** `inc`, `set_pos`, `set_len`, `set_message`, `set_template`. */
  function Update(m: ManagerState, id: nat, c: Change, now: nat): ManagerState
    requires CanApply(m, id, c)
  {
    if !m.alive then m
    else match Lookup(m.states, id)
      case None => m
      case Some(k) =>
        Draw(MarkRedraw(m.(states := m.states[k := Entry(id, Apply(m.states[k].state, c))])), false, now)
  }

  /** `set_visible`: a forced draw, only when the value changes. */
  function SetVisible(m: ManagerState, id: nat, visible: bool, now: nat): ManagerState
  {
    if !m.alive then m
    else match Lookup(m.states, id)
      case None => m
      case Some(k) =>
        var st := m.states[k].state;
        if st.visible == visible then m
        else Draw(MarkRedraw(m.(states := m.states[k := Entry(id, st.(visible := visible, needRedraw := true))])), true, now)
  }

  /** `finish`: pos := len when they differ, then a forced draw. (The source
      calls `set_pos` while still holding the bar's lock; only the
      sequential effect is modelled.) */
  function Finish(m: ManagerState, id: nat, now: nat): ManagerState
  {
    if !m.alive then m
    else match Lookup(m.states, id)
      case None => m
      case Some(k) =>
        var st := m.states[k].state;
        var m1 := if st.pos != st.len then Update(m, id, SetPos(st.len), now) else m;
        Draw(m1, true, now)
  }

  /** `Drop for Bar`: unregister, then a forced draw. */
  function DropBar(m: ManagerState, id: nat, now: nat): ManagerState
  {
    if !m.alive || Lookup(m.states, id).None? then m
    else Draw(MarkRedraw(m.(states := Remove(m.states, id))), true, now)
  }

  /** `Drop for ManagerInner`: a last forced draw; afterwards no handle
      reaches the manager. */
  function Teardown(m: ManagerState, now: nat): ManagerState
  {
    Draw(m, true, now).(alive := false)
  }

  function GetPos(m: ManagerState, id: nat): nat
  {
    match Handle(m, id)
    case Some(st) => st.pos
    case None => 0
  }

  function GetLen(m: ManagerState, id: nat): nat
  {
    match Handle(m, id)
    case Some(st) => st.len
    case None => 0
  }

  function IsVisible(m: ManagerState, id: nat): bool
  {
    match Handle(m, id)
    case Some(st) => st.visible
    case None => false
  }

  function Alive(m: ManagerState, id: nat): bool
  {
    Handle(m, id).Some?
  }

  // ---------------------------------------------------------------------
  // The draw gates and what a draw writes.

  /** An unforced draw is dropped while a ticker runs or within the
      interval, and any draw is dropped when nothing asked for a redraw;
      a dropped draw changes nothing. A draw that passes clears the flag
      and records the time. */
  lemma DrawGates(m: ManagerState, force: bool, now: nat)
    ensures !force && m.ticker ==> Draw(m, force, now) == m
    ensures !force && Since(now, m.lastDraw) < m.interval ==> Draw(m, force, now) == m
    ensures !m.needRedraw ==> Draw(m, force, now) == m
    ensures Passes(m, force, now) ==> !Draw(m, force, now).needRedraw && Draw(m, force, now).lastDraw == now
  {
  }

  /** What a draw that passes writes: in terminal mode with bars present,
      exactly `lastLines` erase sequences first; then the frame. In
      terminal mode the new `lastLines` is the frame's wrapped row count. */
  lemma DrawOutput(m: ManagerState, force: bool, now: nat)
    requires Passes(m, force, now)
    ensures var r := Draw(m, force, now);
      var terminal := IsTerminal(m);
      && r.out == m.out + (if terminal && |m.states| > 0 then Erase(m.lastLines) else "")
                  + Frame(m.states, terminal, now)
      && r.states == Cleared(m.states, terminal)
      && (terminal ==> r.lastLines == WrappedRows(Frame(m.states, terminal, now), m.sink.columns))
      && (!terminal ==> r.lastLines == m.lastLines)
  {
    var terminal := IsTerminal(m);
    if terminal {
      FrameRowsWrapped(m.states, terminal, now, m.sink.columns);
    }
  }

  /** The erase prefix is `n` repetitions of up-and-clear, 7n chars. */
  lemma EraseLength(n: nat)
    ensures |Erase(n)| == 7 * n
  {
    assert |UP + CLEAR| == 7;
  }

  /** `suspend` touches neither the redraw flag nor the last draw time;
      off a terminal it only runs the closure, on one it erases, runs the
      closure, then redraws every visible bar. */
  lemma SuspendEffect(m: ManagerState, written: string, now: nat)
    ensures var r := Suspend(m, written, now);
      && r.needRedraw == m.needRedraw && r.lastDraw == m.lastDraw
      && (!IsTerminal(m) ==> r == m.(out := m.out + written))
      && (IsTerminal(m) ==> r.out == m.out + Erase(m.lastLines) + written + Frame(m.states, true, now))
  {
  }

  /** A bar change within the interval (or with a ticker running) writes
      nothing, leaves the last draw time alone and raises the manager's
      redraw flag (UpdateLocal adds that the bar's own flag stays raised). */
  lemma UpdateThrottled(m: ManagerState, id: nat, c: Change, now: nat)
    requires CanApply(m, id, c)
    requires m.ticker || Since(now, m.lastDraw) < m.interval
    ensures var r := Update(m, id, c, now);
      && r.out == m.out && r.lastDraw == m.lastDraw
      && (Handle(m, id).Some? ==> r.needRedraw)
  {
  }

  /** Off a terminal, a forced draw right after a draw writes nothing:
      every bar written the first time no longer needs a redraw. */
  lemma NonTerminalRedrawQuiet(m: ManagerState, force: bool, now: nat, later: nat)
    requires Passes(m, force, now)
    requires !IsTerminal(m)
    ensures var r := Draw(m, force, now);
      Draw(MarkRedraw(r), true, later).out == r.out
  {
    var r := Draw(m, force, now);
    DrawOutput(m, force, now);
    FrameClearedQuiet(m.states, later);
    DrawOutput(MarkRedraw(r), true, later);
  }

  /** `force_ansi` decides the mode, `auto_ansi` hands it back to the sink. */
  lemma AnsiChoice(m: ManagerState, force: bool)
    ensures IsTerminal(ForceAnsi(m, force)) == force
    ensures IsTerminal(AutoAnsi(m)) == m.sink.isTerminal
    ensures ForceAnsi(m, force).needRedraw && AutoAnsi(m).needRedraw
  {
  }

  // ---------------------------------------------------------------------
  // The registry and the handles.

  /** A bar's state without its dirty flag, which draws clear. */
  function Fields(st: BarState): BarState
  {
    st.(needRedraw := false)
  }

  function Shape(r: seq<Entry>): seq<Entry>
  {
    seq(|r|, i requires 0 <= i < |r| => Entry(r[i].id, Fields(r[i].state)))
  }

  /** A draw changes no bar except for dirty flags, and keeps ids. */
  lemma DrawKeepsShape(m: ManagerState, force: bool, now: nat)
    ensures Shape(Draw(m, force, now).states) == Shape(m.states)
    ensures Draw(m, force, now).nextId == m.nextId && Draw(m, force, now).alive == m.alive
  {
    var r := Draw(m, force, now);
    if Passes(m, force, now) {
      DrawOutput(m, force, now);
      assert |Shape(r.states)| == |Shape(m.states)|;
      forall i | 0 <= i < |m.states| ensures Shape(r.states)[i] == Shape(m.states)[i] {
      }
    }
  }

  /** Every operation keeps ids ordered and below `nextId`. */
  lemma DrawInv(m: ManagerState, force: bool, now: nat)
    requires Inv(m)
    ensures Inv(Draw(m, force, now))
  {
    var r := Draw(m, force, now);
    DrawKeepsShape(m, force, now);
    assert forall i :: 0 <= i < |r.states| ==> r.states[i].id == Shape(r.states)[i].id;
    assert forall i :: 0 <= i < |m.states| ==> m.states[i].id == Shape(m.states)[i].id;
  }

  lemma RegisteredFacts(m: ManagerState, len: u64, message: string, template: string, visible: bool, now: nat)
    requires Inv(m)
    ensures var m1 := Registered(m, len, message, template, visible, now);
      && !HasId(m.states, m.nextId)
      && m1.states == m.states + [Entry(m.nextId, NewBar(len, message, template, visible, now))]
      && Inv(m1)
      && Shape(m1.states) == Shape(m.states) + [Entry(m.nextId, Fields(NewBar(len, message, template, visible, now)))]
  {
    var e := Entry(m.nextId, NewBar(len, message, template, visible, now));
    InsertFresh(m.states, e);
    assert Shape(m.states + [e]) == Shape(m.states) + [Entry(m.nextId, Fields(e.state))];
  }

  /** `create_bar` hands out `nextId`, which no registered bar has, and
      moves `nextId` on by one; the new bar starts at pos 0 with the
      given length, message, compiled template and visibility; the other
      bars keep their fields; only a visible bar forces a draw. */
  lemma CreateBarEffect(m: ManagerState, len: u64, message: string, template: string, visible: bool, now: nat)
    requires Inv(m)
    ensures var r := CreateBar(m, len, message, template, visible, now);
      var id := m.nextId;
      && !HasId(m.states, id)
      && r.nextId == id + 1
      && Inv(r)
      && Shape(r.states) == Shape(m.states) + [Entry(id, Fields(NewBar(len, message, template, visible, now)))]
      && (!visible ==> r.out == m.out && r.lastDraw == m.lastDraw)
      && (visible ==> r.lastDraw == now && !r.needRedraw && m.out <= r.out)
  {
    var m1 := Registered(m, len, message, template, visible, now);
    RegisteredFacts(m, len, message, template, visible, now);
    if visible {
      DrawKeepsShape(MarkRedraw(m1), true, now);
      DrawInv(MarkRedraw(m1), true, now);
      DrawGates(MarkRedraw(m1), true, now);
      DrawAppends(MarkRedraw(m1), true, now);
    }
  }

  /** Storing a new state for a registered bar keeps the invariant. */
  lemma ReplaceInv(m: ManagerState, k: nat, e: Entry)
    requires Inv(m) && k < |m.states| && e.id == m.states[k].id
    ensures Inv(m.(states := m.states[k := e]))
  {
  }

  /** Unregistering a bar keeps the invariant. */
  lemma RemoveInv(m: ManagerState, id: nat)
    requires Inv(m)
    ensures Inv(m.(states := Remove(m.states, id)))
  {
    var r := Remove(m.states, id);
    RemoveOrdered(m.states, id);
    assert forall i :: 0 <= i < |r| ==> r[i] in m.states;
  }

  /** A setter changes its own field of its own bar and nothing else of
      any bar; when the draw after it is throttled, the bar stays marked
      for the next draw. */
  lemma UpdateLocal(m: ManagerState, id: nat, c: Change, now: nat)
    requires Inv(m)
    requires CanApply(m, id, c)
    requires Handle(m, id).Some?
    ensures var r := Update(m, id, c, now);
      var k := Lookup(m.states, id).value;
      && Inv(r) && r.nextId == m.nextId && r.alive
      && Shape(r.states) == Shape(m.states)[k := Entry(id, Fields(Apply(m.states[k].state, c)))]
      && Handle(r, id).Some?
      && Fields(Handle(r, id).value) == Fields(Apply(Handle(m, id).value, c))
      && (m.ticker || Since(now, m.lastDraw) < m.interval ==> Handle(r, id).value.needRedraw)
  {
    var k := Lookup(m.states, id).value;
    var st := Apply(m.states[k].state, c);
    var m1 := MarkRedraw(m.(states := m.states[k := Entry(id, st)]));
    assert Inv(m1);
    DrawKeepsShape(m1, false, now);
    DrawInv(m1, false, now);
    var r := Update(m, id, c, now);
    assert Shape(m1.states) == Shape(m.states)[k := Entry(id, Fields(st))];
    assert r.states[k].id == Shape(r.states)[k].id;
    LookupUnique(r.states, id, k);
    assert Fields(r.states[k].state) == Shape(r.states)[k].state;
  }

  /** Get after set: each getter returns what its setter stored. */
  lemma SetThenGet(m: ManagerState, id: nat, c: Change, now: nat)
    requires Inv(m)
    requires CanApply(m, id, c)
    requires Handle(m, id).Some?
    ensures var r := Update(m, id, c, now);
      && (c.SetPos? ==> GetPos(r, id) == c.pos)
      && (c.Inc? ==> GetPos(r, id) == GetPos(m, id) + c.n)
      && (c.SetLen? ==> GetLen(r, id) == c.len)
      && Handle(r, id).Some?
      && (c.SetMessage? ==> Handle(r, id).value.message == c.message)
      && (c.SetTemplate? ==> Handle(r, id).value.template.parts == Compile(c.template))
      && (!c.SetPos? && !c.Inc? ==> GetPos(r, id) == GetPos(m, id))
      && (!c.SetLen? ==> GetLen(r, id) == GetLen(m, id))
      && IsVisible(r, id) == IsVisible(m, id)
  {
    UpdateLocal(m, id, c, now);
  }

  /** A draw leaves what the getters read unchanged. */
  lemma DrawKeepsReads(m: ManagerState, id: nat, force: bool, now: nat)
    requires Inv(m)
    ensures var r := Draw(m, force, now);
      && Alive(r, id) == Alive(m, id)
      && GetPos(r, id) == GetPos(m, id) && GetLen(r, id) == GetLen(m, id)
      && IsVisible(r, id) == IsVisible(m, id)
  {
    var r := Draw(m, force, now);
    DrawKeepsShape(m, force, now);
    DrawInv(m, force, now);
    assert |r.states| == |Shape(r.states)| == |Shape(m.states)| == |m.states|;
    if Lookup(m.states, id).Some? {
      var k := Lookup(m.states, id).value;
      assert r.states[k].id == Shape(r.states)[k].id == Shape(m.states)[k].id;
      LookupUnique(r.states, id, k);
      assert Fields(r.states[k].state) == Shape(r.states)[k].state == Shape(m.states)[k].state;
    } else {
      assert !HasId(r.states, id) by {
        forall i | 0 <= i < |r.states| ensures r.states[i].id != id {
          assert r.states[i].id == Shape(r.states)[i].id == Shape(m.states)[i].id;
        }
      }
    }
  }

  /** `finish` leaves the bar at its length, with its length and
      visibility unchanged; without a live bar it does nothing. */
  lemma FinishEffect(m: ManagerState, id: nat, now: nat)
    requires Inv(m)
    ensures var r := Finish(m, id, now);
      && (!Alive(m, id) ==> r == m)
      && (Alive(m, id) ==>
            && Alive(r, id)
            && GetPos(r, id) == GetLen(m, id) && GetLen(r, id) == GetLen(m, id)
            && IsVisible(r, id) == IsVisible(m, id))
  {
    if Alive(m, id) {
      var k := Lookup(m.states, id).value;
      var st := m.states[k].state;
      assert Handle(m, id) == Some(st);
      if st.pos != st.len {
        var m1 := Update(m, id, SetPos(st.len), now);
        SetThenGet(m, id, SetPos(st.len), now);
        UpdateFacts(m, id, SetPos(st.len), now);
        DrawKeepsReads(m1, id, true, now);
      } else {
        DrawKeepsReads(m, id, true, now);
      }
    }
  }

  /** `set_visible` with the other value: the bar keeps its place and
      every field but visibility. */
  lemma SetVisibleFlip(m: ManagerState, id: nat, visible: bool, now: nat)
    requires Inv(m) && m.alive && Lookup(m.states, id).Some?
    requires m.states[Lookup(m.states, id).value].state.visible != visible
    ensures var r := SetVisible(m, id, visible, now);
      var k := Lookup(m.states, id).value;
      && Inv(r) && r.alive && |r.states| == |m.states| && Lookup(r.states, id) == Some(k)
      && Fields(r.states[k].state) == Fields(m.states[k].state).(visible := visible)
  {
    var k := Lookup(m.states, id).value;
    var st := m.states[k].state;
    var m1 := MarkRedraw(m.(states := m.states[k := Entry(id, st.(visible := visible, needRedraw := true))]));
    assert Inv(m1);
    DrawKeepsShape(m1, true, now);
    DrawInv(m1, true, now);
    var r := Draw(m1, true, now);
    assert r == SetVisible(m, id, visible, now);
    assert r.states[k].id == Shape(r.states)[k].id;
    LookupUnique(r.states, id, k);
    assert Fields(r.states[k].state) == Shape(r.states)[k].state == Shape(m1.states)[k].state;
  }

  /** `set_visible` with the current value does nothing at all; with the
      other value it flips visibility and keeps every other field. */
  lemma SetVisibleEffect(m: ManagerState, id: nat, visible: bool, now: nat)
    requires Inv(m)
    ensures IsVisible(m, id) == visible && Alive(m, id) ==> SetVisible(m, id, visible, now) == m
    ensures !Alive(m, id) ==> SetVisible(m, id, visible, now) == m
    ensures Alive(m, id) ==> IsVisible(SetVisible(m, id, visible, now), id) == visible
    ensures Inv(SetVisible(m, id, visible, now))
    ensures Alive(m, id) ==> GetPos(SetVisible(m, id, visible, now), id) == GetPos(m, id)
    ensures Alive(m, id) ==> GetLen(SetVisible(m, id, visible, now), id) == GetLen(m, id)
  {
    if Alive(m, id) {
      var k := Lookup(m.states, id).value;
      var st := m.states[k].state;
      assert Handle(m, id) == Some(st);
      if st.visible != visible {
        SetVisibleFlip(m, id, visible, now);
        var r := SetVisible(m, id, visible, now);
        assert Handle(r, id) == Some(r.states[k].state);
      }
    }
  }

  /** Dropping a bar removes exactly its own id, keeps every other bar's
      fields, and forces a draw. */
  lemma DropBarEffect(m: ManagerState, id: nat, now: nat)
    requires Inv(m)
    ensures var r := DropBar(m, id, now);
      && Inv(r)
      && (Alive(m, id) ==> Shape(r.states) == Shape(Remove(m.states, id)) && !Alive(r, id))
      && (!Alive(m, id) ==> r == m)
  {
    if Alive(m, id) {
      var m1 := MarkRedraw(m.(states := Remove(m.states, id)));
      RemoveOrdered(m.states, id);
      assert forall i :: 0 <= i < |m1.states| ==> m1.states[i] in m.states;
      assert Inv(m1);
      DrawKeepsShape(m1, true, now);
      DrawInv(m1, true, now);
      var r := Draw(m1, true, now);
      assert !HasId(r.states, id) by {
        forall i | 0 <= i < |r.states| ensures r.states[i].id != id {
          assert r.states[i].id == Shape(r.states)[i].id == Shape(m1.states)[i].id;
          assert m1.states[i] in m1.states;
        }
      }
    }
  }

  /** After the manager is gone every handle reads 0, 0, false, false and
      every mutator is a no-op. */
  lemma TeardownDefaults(m: ManagerState, id: nat, c: Change, visible: bool, now: nat, later: nat)
    ensures var r := Teardown(m, now);
      && GetPos(r, id) == 0 && GetLen(r, id) == 0 && !IsVisible(r, id) && !Alive(r, id)
      && CanApply(r, id, c) && Update(r, id, c, later) == r
      && SetVisible(r, id, visible, later) == r
      && Finish(r, id, later) == r
      && DropBar(r, id, later) == r
  {
  }

  /** The manager's last act is a forced draw. */
  lemma TeardownDraws(m: ManagerState, now: nat)
    ensures Teardown(m, now).out == Draw(m, true, now).out
    ensures m.needRedraw ==> Teardown(m, now).lastDraw == now
  {
  }

  // ---------------------------------------------------------------------
  // Every step at once.

  /** One public call. */
  datatype Step =
    | DrawStep(force: bool)
    | SuspendStep(written: string)
    | SinkStep(sink: Sink)
    | ForceAnsiStep(force: bool)
    | AutoAnsiStep
    | TickerStep(on: bool)
    | CreateStep(len: u64, message: string, template: string, visible: bool)
    | UpdateStep(id: nat, change: Change)
    | VisibleStep(id: nat, visible: bool)
    | FinishStep(id: nat)
    | DropBarStep(id: nat)
    | TeardownStep

  predicate Allowed(m: ManagerState, s: Step)
  {
    s.UpdateStep? ==> CanApply(m, s.id, s.change)
  }

  function Exec(m: ManagerState, s: Step, now: nat): ManagerState
    requires Allowed(m, s)
  {
    match s
    case DrawStep(force) => Draw(m, force, now)
    case SuspendStep(written) => Suspend(m, written, now)
    case SinkStep(sink) => WithSink(m, sink)
    case ForceAnsiStep(force) => ForceAnsi(m, force)
    case AutoAnsiStep => AutoAnsi(m)
    case TickerStep(on) => SetTicker(m, on)
    case CreateStep(len, message, template, visible) => CreateBar(m, len, message, template, visible, now)
    case UpdateStep(id, change) => Update(m, id, change, now)
    case VisibleStep(id, visible) => SetVisible(m, id, visible, now)
    case FinishStep(id) => Finish(m, id, now)
    case DropBarStep(id) => DropBar(m, id, now)
    case TeardownStep => Teardown(m, now)
  }

  lemma DrawAppends(m: ManagerState, force: bool, now: nat)
    ensures m.out <= Draw(m, force, now).out
  {
    if Passes(m, force, now) {
      DrawOutput(m, force, now);
    }
  }

  lemma DrawFacts(m: ManagerState, force: bool, now: nat)
    requires Inv(m)
    ensures var r := Draw(m, force, now);
      Inv(r) && m.out <= r.out && r.nextId == m.nextId && r.alive == m.alive
  {
    DrawInv(m, force, now);
    DrawAppends(m, force, now);
    DrawKeepsShape(m, force, now);
  }

  lemma UpdateFacts(m: ManagerState, id: nat, c: Change, now: nat)
    requires Inv(m)
    requires CanApply(m, id, c)
    ensures var r := Update(m, id, c, now);
      Inv(r) && m.out <= r.out && r.nextId == m.nextId && r.alive == m.alive
  {
    if Handle(m, id).Some? {
      UpdateLocal(m, id, c, now);
      var k := Lookup(m.states, id).value;
      DrawAppends(MarkRedraw(m.(states := m.states[k := Entry(id, Apply(m.states[k].state, c))])), false, now);
    }
  }

  lemma SuspendFacts(m: ManagerState, written: string, now: nat)
    requires Inv(m)
    ensures var r := Suspend(m, written, now);
      Inv(r) && m.out <= r.out && r.nextId == m.nextId && r.alive == m.alive
  {
    var r := Suspend(m, written, now);
    assert forall i :: 0 <= i < |r.states| ==> r.states[i].id == m.states[i].id;
  }

  lemma SetVisibleFacts(m: ManagerState, id: nat, visible: bool, now: nat)
    requires Inv(m)
    ensures var r := SetVisible(m, id, visible, now);
      Inv(r) && m.out <= r.out && r.nextId == m.nextId && r.alive == m.alive
  {
    SetVisibleEffect(m, id, visible, now);
    if Alive(m, id) {
      var k := Lookup(m.states, id).value;
      var st := m.states[k].state;
      if st.visible != visible {
        var m1 := MarkRedraw(m.(states := m.states[k := Entry(id, st.(visible := visible, needRedraw := true))]));
        DrawAppends(m1, true, now);
        DrawKeepsShape(m1, true, now);
      }
    }
  }

  lemma FinishFacts(m: ManagerState, id: nat, now: nat)
    requires Inv(m)
    ensures var r := Finish(m, id, now);
      Inv(r) && m.out <= r.out && r.nextId == m.nextId && r.alive == m.alive
  {
    if Alive(m, id) {
      var k := Lookup(m.states, id).value;
      var st := m.states[k].state;
      var m1 := if st.pos != st.len then Update(m, id, SetPos(st.len), now) else m;
      if st.pos != st.len {
        UpdateFacts(m, id, SetPos(st.len), now);
      }
      assert Finish(m, id, now) == Draw(m1, true, now);
      DrawInv(m1, true, now);
      DrawAppends(m1, true, now);
      DrawKeepsShape(m1, true, now);
    }
  }

  lemma DropBarFacts(m: ManagerState, id: nat, now: nat)
    requires Inv(m)
    ensures var r := DropBar(m, id, now);
      Inv(r) && m.out <= r.out && r.nextId == m.nextId && r.alive == m.alive
  {
    DropBarEffect(m, id, now);
    if Alive(m, id) {
      var m1 := MarkRedraw(m.(states := Remove(m.states, id)));
      DrawAppends(m1, true, now);
      DrawKeepsShape(m1, true, now);
    }
  }

  /** Whatever the call: the sink only grows (nothing written is taken
      back), ids handed out never come back, the registry stays ordered,
      and a dropped manager stays dropped. */
  lemma StepInvariant(m: ManagerState, s: Step, now: nat)
    requires Inv(m)
    requires Allowed(m, s)
    ensures var r := Exec(m, s, now);
      && Inv(r)
      && m.out <= r.out
      && m.nextId <= r.nextId
      && (!m.alive ==> !r.alive)
  {
    var r := Exec(m, s, now);
    match s
    case DrawStep(force) =>
      assert r == Draw(m, force, now);
      DrawFacts(m, force, now);
    case SuspendStep(written) =>
      assert r == Suspend(m, written, now);
      SuspendFacts(m, written, now);
    case SinkStep(_) =>
    case ForceAnsiStep(_) =>
    case AutoAnsiStep =>
    case TickerStep(_) =>
    case CreateStep(len, message, template, visible) =>
      assert r == CreateBar(m, len, message, template, visible, now);
      CreateBarEffect(m, len, message, template, visible, now);
    case UpdateStep(id, change) =>
      assert r == Update(m, id, change, now);
      UpdateFacts(m, id, change, now);
    case VisibleStep(id, visible) =>
      assert r == SetVisible(m, id, visible, now);
      SetVisibleFacts(m, id, visible, now);
    case FinishStep(id) =>
      assert r == Finish(m, id, now);
      FinishFacts(m, id, now);
    case DropBarStep(id) =>
      assert r == DropBar(m, id, now);
      DropBarFacts(m, id, now);
    case TeardownStep =>
      DrawFacts(m, true, now);
  }
}
