/** The public types of src/lib.rs as sequential objects: `Manager` (with
    the fields of `ManagerInner`, updated in place) and the `Bar` handle.
    Every method is proved to take the manager's state exactly where the
    matching function of the Scheduler module says. */
module Kyuri {
  import opened Strings
  import opened Template
  import opened Format
  import opened BarRender
  import opened Registry
  import Scheduler

  /** The rows a text takes, line by line, as `draw_inner` counts them. */
  method RowsOf(text: string, cols: Scheduler.Columns) returns (n: nat)
    ensures n == WrappedRows(text, cols)
  {
    var lines := Split(text, '\n');
    n := 0;
    for j := 0 to |lines|
      invariant n == SumRows(lines[..j], cols)
    {
      SumRowsStep(lines, j, cols);
      var width := StringWidth(lines[j]);
      ghost var before := n;
      RowsParts(width, cols);
      n := n + width / cols;
      if width % cols != 0 {
        n := n + 1;
      }
      assert n == before + Rows(width, cols);
    }
    assert lines[..|lines|] == lines;
  }

  class Manager {
    var states: seq<Entry>
    var ansi: Option<bool>
    var interval: nat
    var sink: Scheduler.Sink
    var ticker: bool
    var nextId: nat
    var lastDraw: int
    var lastLines: nat
    var needRedraw: bool
    var out: string
    var alive: bool

    /** The manager's state as a value. */
    function Snap(): Scheduler.ManagerState
      reads this
    {
      Scheduler.ManagerState(states, ansi, interval, sink, ticker, nextId, lastDraw, lastLines, needRedraw, out, alive)
    }

    predicate Valid()
      reads this
    {
      Scheduler.Inv(Snap())
    }

    /** `Manager::new`. */
    constructor (interval: nat, now: nat, sink: Scheduler.Sink)
      ensures Snap() == Scheduler.New(interval, now, sink)
      ensures Valid()
    {
      states := [];
      ansi := None;
      this.interval := interval;
      this.sink := sink;
      ticker := false;
      nextId := 0;
      lastDraw := now - interval;
      lastLines := 0;
      needRedraw := false;
      out := "";
      alive := true;
    }

    method IsTerminal() returns (terminal: bool)
      ensures terminal == Scheduler.IsTerminal(Snap())
    {
      match ansi
      case None => terminal := sink.isTerminal;
      case Some(force) => terminal := force;
    }

    method ClearExisting()
      requires Valid()
      modifies this
      ensures Valid()
      ensures Snap() == Scheduler.ClearExisting(old(Snap()))
    {
      var n := lastLines;
      for k := 0 to n
        invariant Snap() == old(Snap()).(out := old(out) + Scheduler.Erase(k))
      {
        out := out + (Scheduler.UP + Scheduler.CLEAR);
      }
    }

    /** One turn of the loop of `draw_inner`: bar i is skipped when hidden
        or, off a terminal, when it needs no redraw; otherwise its text is
        written, its rows counted (on a terminal) and its flag cleared. */
    method WriteBar(s0: seq<Entry>, i: nat, terminal: bool, now: nat, cols: Scheduler.Columns,
                    ghost out0: string, newlines: nat) returns (newlines': nat)
      requires i < |s0|
      requires PassInv(s0, i, terminal, now, cols, states, out0, out, newlines)
      modifies this`out, this`states
      ensures PassInv(s0, i + 1, terminal, now, cols, states, out0, out, newlines')
    {
      PassAdvance(s0, i, terminal, now, cols, states, out0, out, newlines);
      newlines' := newlines;
      var e := states[i];
      var st := e.state;
      if !st.visible {
        return;
      }
      if !terminal && !st.needRedraw {
        return;
      }
      var outstr := Render(st, now) + "\n";
      if terminal {
        var rows := RowsOf(outstr, cols);
        newlines' := newlines' + rows;
      }
      out := out + outstr;
      states := states[i := Entry(e.id, st.(needRedraw := false))];
    }

    /** The loop of `draw_inner`: writes the selected bars in id order,
        clears their dirty flags and counts the rows written. */
    method WriteBars(terminal: bool, now: nat) returns (newlines: nat)
      modifies this`out, this`states
      ensures out == old(out) + Frame(old(states), terminal, now)
      ensures states == Cleared(old(states), terminal)
      ensures terminal ==> newlines == FrameRows(old(states), terminal, now, sink.columns)
    {
      var s0, cols := states, sink.columns;
      ghost var out0 := out;
      newlines := 0;
      var i := 0;
      while i < |s0|
        invariant PassInv(s0, i, terminal, now, cols, states, out0, out, newlines)
        decreases |s0| - i
      {
        newlines := WriteBar(s0, i, terminal, now, cols, out0, newlines);
        i := i + 1;
      }
      PassDone(s0, terminal, now, cols, states, out0, out, newlines);
    }

    method DrawInner(terminal: bool, now: nat)
      requires Valid()
      modifies this
      ensures Valid()
      ensures Snap() == Scheduler.DrawInner(old(Snap()), terminal, now)
    {
      ghost var m0 := Snap();
      var newlines := WriteBars(terminal, now);
      if terminal {
        lastLines := newlines;
      }
      Scheduler.DrawInnerFields(m0, terminal, now, Snap());
    }

    method MarkRedraw()
      requires Valid()
      modifies this
      ensures Valid()
      ensures Snap() == Scheduler.MarkRedraw(old(Snap()))
    {
      needRedraw := true;
    }

    /** `ManagerInner::draw`. */
    method Draw(force: bool, now: nat)
      requires Valid()
      modifies this
      ensures Valid()
      ensures Snap() == Scheduler.Draw(old(Snap()), force, now)
    {
      if !force && ticker {
        return;
      }
      if !force && Since(now, lastDraw) < interval {
        return;
      }
      var wasNeeded := needRedraw;
      needRedraw := false;
      if !wasNeeded {
        return;
      }
      var terminal := IsTerminal();
      if terminal && |states| > 0 {
        ClearExisting();
      }
      DrawInner(terminal, now);
      lastDraw := now;
    }

    /** `suspend`, with a closure that writes `written`. */
    method Suspend(written: string, now: nat)
      requires Valid()
      modifies this
      ensures Valid()
      ensures Snap() == Scheduler.Suspend(old(Snap()), written, now)
    {
      Scheduler.SuspendFacts(Snap(), written, now);
      var terminal := IsTerminal();
      if terminal {
        ClearExisting();
      }
      out := out + written;
      if terminal {
        DrawInner(true, now);
      }
    }

    method WithSink(sink: Scheduler.Sink)
      requires Valid()
      modifies this
      ensures Valid()
      ensures Snap() == Scheduler.WithSink(old(Snap()), sink)
    {
      this.sink := sink;
      MarkRedraw();
    }

    method ForceAnsi(force: bool)
      requires Valid()
      modifies this
      ensures Valid()
      ensures Snap() == Scheduler.ForceAnsi(old(Snap()), force)
    {
      ansi := Some(force);
      MarkRedraw();
    }

    method AutoAnsi()
      requires Valid()
      modifies this
      ensures Valid()
      ensures Snap() == Scheduler.AutoAnsi(old(Snap()))
    {
      ansi := None;
      MarkRedraw();
    }

    method SetTicker(on: bool)
      requires Valid()
      modifies this
      ensures Valid()
      ensures Snap() == Scheduler.SetTicker(old(Snap()), on)
    {
      ticker := on;
    }

    /** `create_bar`: the handle carries the id the manager handed out. */
    method CreateBar(len: u64, message: string, template: string, visible: bool, now: nat) returns (bar: Bar)
      requires Valid()
      modifies this
      ensures Valid()
      ensures fresh(bar) && bar.manager == this && bar.id == old(nextId)
      ensures Snap() == Scheduler.CreateBar(old(Snap()), len, message, template, visible, now)
    {
      ghost var m0 := Snap();
      ghost var m1 := Scheduler.Registered(m0, len, message, template, visible, now);
      Scheduler.RegisteredFacts(m0, len, message, template, visible, now);
      var id := nextId;
      nextId := nextId + 1;
      var t := NewTemplate(template);
      states := states + [Entry(id, BarState(len, 0, message, t, now, visible, true))];
      assert Snap() == m1;
      if visible {
        MarkRedraw();
        Draw(true, now);
      }
      bar := new Bar(id, this);
    }

    /** `Drop for ManagerInner`. */
    method Drop(now: nat)
      requires Valid()
      modifies this
      ensures Valid()
      ensures Snap() == Scheduler.Teardown(old(Snap()), now)
    {
      Draw(true, now);
      alive := false;
    }
  }

  class Bar {
    const id: nat
    const manager: Manager

    constructor (id: nat, manager: Manager)
      ensures this.id == id && this.manager == manager
    {
      this.id := id;
      this.manager := manager;
    }

    /** `get_manager_and_state`: where this bar's state sits, if the
        manager is alive and the bar registered. */
    method Locate() returns (k: Option<nat>)
      ensures k.Some? <==> Scheduler.Handle(manager.Snap(), id).Some?
      ensures k.Some? ==> k == Lookup(manager.states, id)
    {
      if manager.alive {
        k := Lookup(manager.states, id);
      } else {
        k := None;
      }
    }

    /** The field assignment of one setter (`set_template` compiles the
        new template). */
    static method Applied(st: BarState, c: Scheduler.Change) returns (st': BarState)
      requires Scheduler.Fits(st, c)
      ensures st' == Scheduler.Apply(st, c)
    {
      match c {
        case Inc(n) => st' := st.(pos := st.pos + n, needRedraw := true);
        case SetPos(pos) => st' := st.(pos := pos, needRedraw := true);
        case SetLen(len) => st' := st.(len := len, needRedraw := true);
        case SetMessage(message) => st' := st.(message := message, needRedraw := true);
        case SetTemplate(template) =>
          var t := NewTemplate(template);
          st' := st.(template := t, needRedraw := true);
      }
    }

    /** The common body of the five setters. */
    method Change(c: Scheduler.Change, now: nat)
      requires manager.Valid()
      requires Scheduler.CanApply(manager.Snap(), id, c)
      modifies manager
      ensures manager.Valid()
      ensures manager.Snap() == Scheduler.Update(old(manager.Snap()), id, c, now)
    {
      var k := Locate();
      if k.Some? {
        var st' := Applied(manager.states[k.value].state, c);
        Scheduler.ReplaceInv(manager.Snap(), k.value, Entry(id, st'));
        manager.states := manager.states[k.value := Entry(id, st')];
        manager.MarkRedraw();
        manager.Draw(false, now);
      }
    }

    /** `inc`, which must not overflow u64. */
    method Inc(n: u64, now: nat)
      requires manager.Valid()
      requires Scheduler.CanApply(manager.Snap(), id, Scheduler.Inc(n))
      modifies manager
      ensures manager.Valid()
      ensures manager.Snap() == Scheduler.Update(old(manager.Snap()), id, Scheduler.Inc(n), now)
    {
      Change(Scheduler.Inc(n), now);
    }

    method SetPos(pos: u64, now: nat)
      requires manager.Valid()
      modifies manager
      ensures manager.Valid()
      ensures manager.Snap() == Scheduler.Update(old(manager.Snap()), id, Scheduler.SetPos(pos), now)
    {
      Change(Scheduler.SetPos(pos), now);
    }

    method SetLen(len: u64, now: nat)
      requires manager.Valid()
      modifies manager
      ensures manager.Valid()
      ensures manager.Snap() == Scheduler.Update(old(manager.Snap()), id, Scheduler.SetLen(len), now)
    {
      Change(Scheduler.SetLen(len), now);
    }

    method SetMessage(message: string, now: nat)
      requires manager.Valid()
      modifies manager
      ensures manager.Valid()
      ensures manager.Snap() == Scheduler.Update(old(manager.Snap()), id, Scheduler.SetMessage(message), now)
    {
      Change(Scheduler.SetMessage(message), now);
    }

    method SetTemplate(template: string, now: nat)
      requires manager.Valid()
      modifies manager
      ensures manager.Valid()
      ensures manager.Snap() == Scheduler.Update(old(manager.Snap()), id, Scheduler.SetTemplate(template), now)
    {
      Change(Scheduler.SetTemplate(template), now);
    }

    method GetPos() returns (pos: nat)
      ensures pos == Scheduler.GetPos(manager.Snap(), id)
    {
      var k := Locate();
      pos := if k.Some? then manager.states[k.value].state.pos else 0;
    }

    method GetLen() returns (len: nat)
      ensures len == Scheduler.GetLen(manager.Snap(), id)
    {
      var k := Locate();
      len := if k.Some? then manager.states[k.value].state.len else 0;
    }

    /** `finish`. The source still holds the bar's lock when it calls
        `set_pos`, which locks it again; only the sequential effect is
        modelled here. */
    method Finish(now: nat)
      requires manager.Valid()
      modifies manager
      ensures manager.Valid()
      ensures manager.Snap() == Scheduler.Finish(old(manager.Snap()), id, now)
    {
      var k := Locate();
      if k.Some? {
        var st := manager.states[k.value].state;
        if st.pos != st.len {
          SetPos(st.len, now);
        }
        manager.Draw(true, now);
      }
    }

    method SetVisible(visible: bool, now: nat)
      requires manager.Valid()
      modifies manager
      ensures manager.Valid()
      ensures manager.Snap() == Scheduler.SetVisible(old(manager.Snap()), id, visible, now)
    {
      var k := Locate();
      if k.Some? {
        var st := manager.states[k.value].state;
        if st.visible != visible {
          Scheduler.ReplaceInv(manager.Snap(), k.value, Entry(id, st.(visible := visible, needRedraw := true)));
          manager.states := manager.states[k.value := Entry(id, st.(visible := visible, needRedraw := true))];
          manager.MarkRedraw();
          manager.Draw(true, now);
        }
      }
    }

    method IsVisible() returns (visible: bool)
      ensures visible == Scheduler.IsVisible(manager.Snap(), id)
    {
      var k := Locate();
      visible := k.Some? && manager.states[k.value].state.visible;
    }

    method Alive() returns (alive: bool)
      ensures alive == Scheduler.Alive(manager.Snap(), id)
    {
      var k := Locate();
      alive := k.Some?;
    }

    /** `Drop for Bar`. */
    method Drop(now: nat)
      requires manager.Valid()
      modifies manager
      ensures manager.Valid()
      ensures manager.Snap() == Scheduler.DropBar(old(manager.Snap()), id, now)
    {
      var k := Locate();
      if k.Some? {
        Scheduler.RemoveInv(manager.Snap(), id);
        manager.states := Remove(manager.states, id);
        manager.MarkRedraw();
        manager.Draw(true, now);
      }
    }
  }
}
