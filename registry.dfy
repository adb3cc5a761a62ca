/** The manager's bar registry, a `BTreeMap<usize, BarState>` kept as a
    sequence of entries in ascending id order, and what one pass of
    `draw_inner` makes of it (src/lib.rs). */
module Registry {
  import opened Strings
  import opened Format
  import opened BarRender

  datatype Entry = Entry(id: nat, state: BarState)

  /** Ids strictly ascending: the map's iteration order. */
  predicate Ordered(r: seq<Entry>)
  {
    forall i, j :: 0 <= i < j < |r| ==> r[i].id < r[j].id
  }

  predicate HasId(r: seq<Entry>, id: nat)
  {
    exists i :: 0 <= i < |r| && r[i].id == id
  }

  /** Position of the entry for `id`, if any. */
  function Lookup(r: seq<Entry>, id: nat): (k: Option<nat>)
    ensures k.Some? ==> k.value < |r| && r[k.value].id == id
    ensures k.None? <==> !HasId(r, id)
  {
    if r == [] then None
    else if r[|r| - 1].id == id then Some(|r| - 1)
    else
      Lookup(r[..|r| - 1], id)
  }

  /** In an ordered registry an id sits at one position only. */
  lemma LookupUnique(r: seq<Entry>, id: nat, i: nat)
    requires Ordered(r)
    requires i < |r| && r[i].id == id
    ensures Lookup(r, id) == Some(i)
  {
  }

  /** `BTreeMap::get`. */
  function Get(r: seq<Entry>, id: nat): Option<BarState>
  {
    match Lookup(r, id)
    case Some(k) => Some(r[k].state)
    case None => None
  }

  /** `BTreeMap::insert`: replaces the entry with the same id, otherwise
      puts the new entry in id order. */
  function Insert(r: seq<Entry>, e: Entry): seq<Entry>
  {
    if r == [] then [e]
    else if r[0].id == e.id then [e] + r[1..]
    else if e.id < r[0].id then [e] + r
    else [r[0]] + Insert(r[1..], e)
  }

  /** An id above every present id goes to the end. */
  lemma {:induction false} InsertFresh(r: seq<Entry>, e: Entry)
    requires forall i :: 0 <= i < |r| ==> r[i].id < e.id
    ensures Insert(r, e) == r + [e]
    decreases |r|
  {
    if r != [] {
      InsertFresh(r[1..], e);
      assert [r[0]] + (r[1..] + [e]) == r + [e];
    }
  }

  /** `BTreeMap::remove`: the entries with other ids, in order. */
  function Remove(r: seq<Entry>, id: nat): (r': seq<Entry>)
    ensures forall e :: e in r' <==> e in r && e.id != id
    ensures |r'| <= |r|
  {
    if r == [] then []
    else (if r[0].id == id then [] else [r[0]]) + Remove(r[1..], id)
  }

  /** Removing keeps the ids in order. */
  lemma {:induction false} RemoveOrdered(r: seq<Entry>, id: nat)
    requires Ordered(r)
    ensures Ordered(Remove(r, id))
    decreases |r|
  {
    if r != [] {
      RemoveOrdered(r[1..], id);
      var tail := Remove(r[1..], id);
      forall e | e in tail ensures r[0].id < e.id {
        assert e in r[1..];
      }
    }
  }

  /** Removing an absent id changes nothing. */
  lemma {:induction false} RemoveAbsent(r: seq<Entry>, id: nat)
    requires !HasId(r, id)
    ensures Remove(r, id) == r
    decreases |r|
  {
    if r != [] {
      assert r[0].id != id;
      RemoveAbsent(r[1..], id);
      assert [r[0]] + r[1..] == r;
    }
  }

  // ---------------------------------------------------------------------
  // One pass of `draw_inner` over the registry.

  /** A bar `draw_inner` writes: visible, and in a non-terminal sink only
      when it needs a redraw. */
  predicate Selected(st: BarState, terminal: bool)
  {
    st.visible && (terminal || st.needRedraw)
  }

  /** The text written for one bar: its rendering and a line break. */
  function Segment(st: BarState, now: nat): string
  {
    Render(st, now) + "\n"
  }

  /** Everything one pass writes: the selected bars' segments, in id order. */
  function Frame(r: seq<Entry>, terminal: bool, now: nat): string
  {
    if r == [] then ""
    else
      var last := r[|r| - 1].state;
      Frame(r[..|r| - 1], terminal, now) + (if Selected(last, terminal) then Segment(last, now) else "")
  }

  function ClearEntry(e: Entry, terminal: bool): Entry
  {
    if Selected(e.state, terminal) then e.(state := e.state.(needRedraw := false)) else e
  }

  /** The registry after a pass: every written bar no longer needs a redraw. */
  function Cleared(r: seq<Entry>, terminal: bool): (c: seq<Entry>)
    ensures |c| == |r|
    ensures forall i :: 0 <= i < |r| ==> c[i].id == r[i].id
    ensures forall i :: 0 <= i < |r| ==>
      c[i].state == r[i].state.(needRedraw := r[i].state.needRedraw && !Selected(r[i].state, terminal))
  {
    if r == [] then []
    else Cleared(r[..|r| - 1], terminal) + [ClearEntry(r[|r| - 1], terminal)]
  }

  /** One more bar of a pass: the frame, the row count and the cleared
      registry each grow by that bar's share. */
  lemma PassStep(s0: seq<Entry>, i: nat, terminal: bool, now: nat, cols: nat)
    requires i < |s0| && cols > 0
    ensures var st := s0[i].state;
      && Frame(s0[..i + 1], terminal, now)
         == Frame(s0[..i], terminal, now) + (if Selected(st, terminal) then Segment(st, now) else "")
      && FrameRows(s0[..i + 1], terminal, now, cols)
         == FrameRows(s0[..i], terminal, now, cols)
            + (if Selected(st, terminal) then WrappedRows(Segment(st, now), cols) else 0)
      && Cleared(s0[..i + 1], terminal) == Cleared(s0[..i], terminal) + [ClearEntry(s0[i], terminal)]
  {
    assert s0[..i + 1][..i] == s0[..i];
  }

  lemma ClearedSplice(s0: seq<Entry>, i: nat, terminal: bool, states: seq<Entry>)
    requires i < |s0|
    requires states == Cleared(s0[..i], terminal) + s0[i..]
    ensures states[i := ClearEntry(s0[i], terminal)] == Cleared(s0[..i + 1], terminal) + s0[i + 1..]
  {
    assert s0[..i + 1][..i] == s0[..i];
    var pre := Cleared(s0[..i], terminal);
    assert s0[i..] == [s0[i]] + s0[i + 1..];
    assert states == pre + [s0[i]] + s0[i + 1..];
    UpdateSplice(pre, s0[i], ClearEntry(s0[i], terminal), s0[i + 1..]);
  }

  /** Overwriting the element between two slices. */
  lemma UpdateSplice<T>(a: seq<T>, x: T, y: T, b: seq<T>)
    ensures (a + [x] + b)[|a| := y] == a + [y] + b
  {
  }

  /** The loop state of `draw_inner` after `i` bars: those bars cleared,
      their frame written after `out0`, their rows counted. */
  predicate PassInv(s0: seq<Entry>, i: nat, terminal: bool, now: nat, cols: nat,
                    states: seq<Entry>, out0: string, out: string, rows: nat)
    requires cols > 0
  {
    && i <= |s0|
    && states == Cleared(s0[..i], terminal) + s0[i..]
    && out == out0 + Frame(s0[..i], terminal, now)
    && (terminal ==> rows == FrameRows(s0[..i], terminal, now, cols))
  }

  /** Bar i of a pass: written, cleared and counted when selected, skipped
      otherwise; either way the loop state covers one more bar. */
  lemma PassAdvance(s0: seq<Entry>, i: nat, terminal: bool, now: nat, cols: nat,
                    states: seq<Entry>, out0: string, out: string, rows: nat)
    requires i < |s0| && cols > 0
    requires PassInv(s0, i, terminal, now, cols, states, out0, out, rows)
    ensures var e := states[i];
      var st := e.state;
      var text := Render(st, now) + "\n";
      && e == s0[i]
      && (st.visible && (terminal || st.needRedraw) ==>
            PassInv(s0, i + 1, terminal, now, cols,
                    states[i := Entry(e.id, st.(needRedraw := false))],
                    out0, out + text, rows + (if terminal then WrappedRows(text, cols) else 0)))
      && (!(st.visible && (terminal || st.needRedraw)) ==>
            PassInv(s0, i + 1, terminal, now, cols, states, out0, out, rows))
  {
    PassAt(s0, i, terminal, states);
    if Selected(s0[i].state, terminal) {
      PassSelected(s0, i, terminal, now, cols, states, out0, out, rows);
    } else {
      PassSkipped(s0, i, terminal, now, cols, states, out0, out, rows);
    }
  }

  /** The pass finds the original entry at its position. */
  lemma PassAt(s0: seq<Entry>, i: nat, terminal: bool, states: seq<Entry>)
    requires i < |s0|
    requires states == Cleared(s0[..i], terminal) + s0[i..]
    ensures states[i] == s0[i]
  {
    assert |Cleared(s0[..i], terminal)| == i;
  }

  /** A selected bar is written, counted and has its flag cleared. */
  lemma PassSelected(s0: seq<Entry>, i: nat, terminal: bool, now: nat, cols: nat,
                     states: seq<Entry>, out0: string, out: string, rows: nat)
    requires i < |s0| && cols > 0 && Selected(s0[i].state, terminal)
    requires PassInv(s0, i, terminal, now, cols, states, out0, out, rows)
    ensures var st := s0[i].state;
      var seg := Segment(st, now);
      PassInv(s0, i + 1, terminal, now, cols,
              states[i := Entry(s0[i].id, st.(needRedraw := false))],
              out0, out + seg, rows + (if terminal then WrappedRows(seg, cols) else 0))
  {
    PassStep(s0, i, terminal, now, cols);
    ClearedSplice(s0, i, terminal, states);
    var st := s0[i].state;
    var seg := Segment(st, now);
    assert ClearEntry(s0[i], terminal) == Entry(s0[i].id, st.(needRedraw := false));
    AppendAssoc(out0, Frame(s0[..i], terminal, now), seg);
  }

  /** A bar that is not selected leaves everything as it is. */
  lemma PassSkipped(s0: seq<Entry>, i: nat, terminal: bool, now: nat, cols: nat,
                    states: seq<Entry>, out0: string, out: string, rows: nat)
    requires i < |s0| && cols > 0 && !Selected(s0[i].state, terminal)
    requires PassInv(s0, i, terminal, now, cols, states, out0, out, rows)
    ensures PassInv(s0, i + 1, terminal, now, cols, states, out0, out, rows)
  {
    PassStep(s0, i, terminal, now, cols);
    ClearedSplice(s0, i, terminal, states);
    PassAt(s0, i, terminal, states);
    assert ClearEntry(s0[i], terminal) == s0[i];
    assert states[i := s0[i]] == states;
  }

  /** The loop state of `draw_inner` once every bar has been visited. */
  lemma PassDone(s0: seq<Entry>, terminal: bool, now: nat, cols: nat,
                 states: seq<Entry>, out0: string, out: string, rows: nat)
    requires cols > 0
    requires PassInv(s0, |s0|, terminal, now, cols, states, out0, out, rows)
    ensures states == Cleared(s0, terminal)
    ensures out == out0 + Frame(s0, terminal, now)
    ensures terminal ==> rows == FrameRows(s0, terminal, now, cols)
  {
    assert s0[..|s0|] == s0;
    assert s0[|s0|..] == [];
  }

  /** Terminal rows taken by a line of `width` chars in `cols` columns. */
  function Rows(width: nat, cols: nat): nat
    requires cols > 0
  {
    width / cols + (if width % cols != 0 then 1 else 0)
  }

  /** The row count is the ceiling of width / cols: the fewest rows of
      `cols` cells that hold `width` cells, and none for an empty line. */
  lemma RowsCeiling(width: nat, cols: nat)
    requires cols > 0
    ensures var n := Rows(width, cols);
      && width <= n * cols
      && (n > 0 ==> (n - 1) * cols < width)
      && (n == 0 <==> width == 0)
  {
    var q, r := width / cols, width % cols;
    assert width == q * cols + r;
  }

  lemma RowsParts(width: nat, cols: nat)
    requires cols > 0
    ensures width / cols >= 0
    ensures Rows(width, cols) == width / cols + (if width % cols != 0 then 1 else 0)
  {
  }

  lemma SumRowsStep(lines: seq<string>, j: nat, cols: nat)
    requires j < |lines| && cols > 0
    ensures SumRows(lines[..j + 1], cols) == SumRows(lines[..j], cols) + Rows(StringWidth(lines[j]), cols)
  {
    assert lines[..j + 1][..j] == lines[..j];
  }

  function SumRows(lines: seq<string>, cols: nat): nat
    requires cols > 0
  {
    if lines == [] then 0
    else SumRows(lines[..|lines| - 1], cols) + Rows(StringWidth(lines[|lines| - 1]), cols)
  }

  /** Rows taken by a text: the sum over its lines, empty lines taking none. */
  function WrappedRows(text: string, cols: nat): nat
    requires cols > 0
  {
    SumRows(Split(text, '\n'), cols)
  }

  /** The row count `draw_inner` accumulates: bar by bar, the rows of each
      written segment. */
  function FrameRows(r: seq<Entry>, terminal: bool, now: nat, cols: nat): nat
    requires cols > 0
  {
    if r == [] then 0
    else
      var last := r[|r| - 1].state;
      FrameRows(r[..|r| - 1], terminal, now, cols)
      + (if Selected(last, terminal) then WrappedRows(Segment(last, now), cols) else 0)
  }

  lemma {:induction false} SumRowsAppend(a: seq<string>, b: seq<string>, cols: nat)
    requires cols > 0
    ensures SumRows(a + b, cols) == SumRows(a, cols) + SumRows(b, cols)
    decreases |b|
  {
    if b == [] {
      assert a + b == a;
    } else {
      assert (a + b)[..|a + b| - 1] == a + b[..|b| - 1];
      SumRowsAppend(a, b[..|b| - 1], cols);
    }
  }

  /** An empty text takes no rows. */
  lemma WrappedRowsEmpty(cols: nat)
    requires cols > 0
    ensures WrappedRows("", cols) == 0
  {
    assert Split("", '\n') == [""];
    assert SumRows([""], cols) == SumRows([], cols) + Rows(0, cols);
  }

  /** Rows add up across a line break. */
  lemma WrappedRowsAppend(f: string, s: string, cols: nat)
    requires cols > 0
    requires f == "" || f[|f| - 1] == '\n'
    ensures WrappedRows(f + s, cols) == WrappedRows(f, cols) + WrappedRows(s, cols)
  {
    if f == "" {
      assert f + s == s;
      WrappedRowsEmpty(cols);
    } else {
      var g := f[..|f| - 1];
      assert f == g + ['\n'] + "";
      assert f + s == g + ['\n'] + s;
      SplitAt(g, s, '\n');
      SplitAt(g, "", '\n');
      assert Split("", '\n') == [""];
      SumRowsAppend(Split(g, '\n'), Split(s, '\n'), cols);
      SumRowsAppend(Split(g, '\n'), [""], cols);
      assert SumRows([""], cols) == SumRows([], cols) + Rows(0, cols);
    }
  }

  lemma {:induction false} FrameEndsLine(r: seq<Entry>, terminal: bool, now: nat)
    ensures var f := Frame(r, terminal, now); f == "" || f[|f| - 1] == '\n'
    decreases |r|
  {
    if r != [] {
      FrameEndsLine(r[..|r| - 1], terminal, now);
    }
  }

  /** The rows counted bar by bar equal the rows of the whole frame: the sum
      over its line-break-separated lines of ⌈width / cols⌉. */
  lemma {:induction false} FrameRowsWrapped(r: seq<Entry>, terminal: bool, now: nat, cols: nat)
    requires cols > 0
    ensures FrameRows(r, terminal, now, cols) == WrappedRows(Frame(r, terminal, now), cols)
    decreases |r|
  {
    if r == [] {
      WrappedRowsEmpty(cols);
    } else {
      var init := r[..|r| - 1];
      var last := r[|r| - 1].state;
      FrameRowsWrapped(init, terminal, now, cols);
      FrameEndsLine(init, terminal, now);
      var tail := if Selected(last, terminal) then Segment(last, now) else "";
      WrappedRowsAppend(Frame(init, terminal, now), tail, cols);
      if !Selected(last, terminal) {
        WrappedRowsEmpty(cols);
      }
    }
  }

  /** Only visible bars are written: a registry of hidden bars yields nothing. */
  lemma {:induction false} FrameHidden(r: seq<Entry>, terminal: bool, now: nat)
    requires forall i :: 0 <= i < |r| ==> !r[i].state.visible
    ensures Frame(r, terminal, now) == ""
    decreases |r|
  {
    if r != [] {
      FrameHidden(r[..|r| - 1], terminal, now);
    }
  }

  /** In a non-terminal sink a second pass writes nothing: the first one
      cleared every bar it wrote. */
  lemma {:induction false} FrameClearedQuiet(r: seq<Entry>, now: nat)
    ensures Frame(Cleared(r, false), false, now) == ""
    decreases |r|
  {
    if r != [] {
      var c := Cleared(r, false);
      assert c[..|c| - 1] == Cleared(r[..|r| - 1], false);
      FrameClearedQuiet(r[..|r| - 1], now);
    }
  }
}
