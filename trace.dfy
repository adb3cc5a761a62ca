/** The file-sink scenario of src/lib.rs (`test_pb_to_file`): a manager
    writing to a file, two bars, a forced draw in the middle and the
    teardown draw at the end, each call with its own clock reading. The
    output is derived from the model, first on the state values and then
    through the `Manager` and `Bar` objects. */
module FileSink {
  import opened Strings
  import opened Template
  import opened Format
  import opened BarRender
  import opened Registry
  import Scheduler
  import Kyuri

  /** `{msg}\n{bytes}/{total_bytes}`, written out tag by tag. */
  const REST2 := "/" + "{" + "total_bytes" + "}"
  const REST1 := "\n" + "{" + "bytes" + "}" + REST2
  const TEMPLATE_SIMPLE := "{" + "msg" + "}" + REST1
  const D1 := "Downloading http://d1.example.com/"
  const D2 := "Downloading http://d2.example.com/"

  /** The whole text the file holds after the manager is dropped: twelve
      lines, each bar's message followed by its byte counts. */
  const EXPECTED :=
    (D1 + "\n0 B/10 B\n") + (D2 + "\n0 B/10 B\n")
    + (D1 + "\n2 B/10 B\n") + (D2 + "\n3 B/10 B\n")
    + (D1 + "\n5 B/10 B\n") + (D2 + "\n7 B/10 B\n")

  lemma UnescapedChar(c: char)
    requires c != '{' && c != '}'
    ensures Unescaped([c]) == Some([c])
  {
    assert [c][1..] == [];
    assert Unescaped([]) == Some([]);
    assert Unescaped([c]) == Prepend(c, Unescaped([]));
    assert [c] + [] == [c];
  }

  lemma Regroup(a: string, b: string, c: string, d: string, e: string)
    ensures a + (b + c + (d + e)) == a + b + c + d + e
  {
    calc {
      a + (b + c + (d + e));
      a + ((b + c + d) + e);
      (a + (b + c + d)) + e;
      (a + (b + c) + d) + e;
      a + b + c + d + e;
    }
  }

  /** The three tags of the template: well-formed and known. */
  lemma KnownTags()
    ensures '}' !in "msg" && '}' !in "bytes" && '}' !in "total_bytes"
    ensures TagPart("msg") == Some(Message) && TagPart("bytes") == Some(Bytes)
    ensures TagPart("total_bytes") == Some(TotalBytes)
  {
  }

  /** `/{total_bytes}`: a slash and the length in bytes. */
  lemma RenderRest2(st: BarState, now: nat)
    ensures RenderParts(Compile(REST2), st, now) == "/" + BytesToHuman(st.len)
  {
    var sl, len := "/", BytesToHuman(st.len);
    calc {
      RenderParts(Compile(REST2), st, now);
      { assert REST2 == sl + "{" + "total_bytes" + "}" + ""; }
      RenderParts(Compile(sl + "{" + "total_bytes" + "}" + ""), st, now);
      { UnescapedChar('/'); KnownTags(); RenderTagInContext(sl, "total_bytes", "", st, now); }
      Unescaped(sl).value + RenderPart(TotalBytes, st, now) + RenderParts(Compile(""), st, now);
      { UnescapedChar('/'); CompileEmpty(); }
      sl + len + RenderParts([], st, now);
      sl + len;
    }
  }

  /** `\n{bytes}/{total_bytes}`: a line break, the position in bytes, the
      rest. */
  lemma RenderRest1(st: BarState, now: nat)
    ensures RenderParts(Compile(REST1), st, now) == "\n" + BytesToHuman(st.pos) + ("/" + BytesToHuman(st.len))
  {
    UnescapedChar('\n');
    KnownTags();
    RenderTagInContext("\n", "bytes", REST2, st, now);
    RenderRest2(st, now);
  }

  /** The message, then on a second line the byte counts. */
  lemma SimpleRender(st: BarState, now: nat)
    requires st.template == Template(Compile(TEMPLATE_SIMPLE))
    ensures Render(st, now) == st.message + "\n" + BytesToHuman(st.pos) + "/" + BytesToHuman(st.len)
  {
    var msg, nl, pos, sl, len := st.message, "\n", BytesToHuman(st.pos), "/", BytesToHuman(st.len);
    assert "" + "{" + "msg" + "}" + REST1 == TEMPLATE_SIMPLE;
    KnownTags();
    RenderTagInContext("", "msg", REST1, st, now);
    RenderRest1(st, now);
    calc {
      Render(st, now);
      "" + msg + (nl + pos + (sl + len));
      { assert "" + msg == msg; }
      msg + (nl + pos + (sl + len));
      { Regroup(msg, nl, pos, sl, len); }
      msg + nl + pos + sl + len;
    }
  }

  /** A count below ten in bytes: one digit and the unit. */
  lemma BytesDigit(n: nat)
    requires n < 10
    ensures BytesToHuman(n) == [Digit(n)] + " B"
  {
  }

  function BarMessage(id: nat): string
  {
    if id == 0 then D1 else D2
  }

  /** Bar `id` of the scenario at position `pos`, created at `created`. */
  function BarAt(id: nat, pos: u64, redraw: bool, created: nat): Entry
  {
    Entry(id, BarState(10, pos, BarMessage(id), Template(Compile(TEMPLATE_SIMPLE)), created, true, redraw))
  }

  /** The line break and the second line of bar text at position `pos`. */
  function Counts(pos: nat): string
    requires pos < 10
  {
    "\n" + [Digit(pos)] + " B/10 B\n"
  }

  /** The two lines bar `id` writes at position `pos`. */
  function Lines(id: nat, pos: nat): string
    requires pos < 10
  {
    BarMessage(id) + Counts(pos)
  }

  lemma CountsText()
    ensures Counts(0) == "\n0 B/10 B\n" && Counts(2) == "\n2 B/10 B\n" && Counts(3) == "\n3 B/10 B\n"
    ensures Counts(5) == "\n5 B/10 B\n" && Counts(7) == "\n7 B/10 B\n"
  {
  }

  lemma CountsPieces(pos: nat)
    requires pos < 10
    ensures Counts(pos) == "\n" + ([Digit(pos)] + " B") + "/" + "10 B" + "\n"
  {
  }

  lemma Regroup6(a: string, b: string, c: string, d: string, e: string, f: string)
    ensures a + b + c + d + e + f == a + (b + c + d + e + f)
  {
    calc {
      a + b + c + d + e + f;
      a + (b + c + d + e) + f;
      a + (b + c + d + e + f);
    }
  }

  lemma SegmentOf(id: nat, pos: u64, redraw: bool, created: nat, now: nat)
    requires pos < 10
    ensures Segment(BarAt(id, pos, redraw, created).state, now) == Lines(id, pos)
  {
    var st := BarAt(id, pos, redraw, created).state;
    var nl, d, sl, ten := "\n", [Digit(pos)] + " B", "/", "10 B";
    calc {
      Segment(st, now);
      Render(st, now) + nl;
      { SimpleRender(st, now); }
      BarMessage(id) + nl + BytesToHuman(pos) + sl + BytesToHuman(10) + nl;
      { BytesDigit(pos); BytesSmallExamples(); }
      BarMessage(id) + nl + d + sl + ten + nl;
      { Regroup6(BarMessage(id), nl, d, sl, ten, nl); }
      BarMessage(id) + (nl + d + sl + ten + nl);
      { CountsPieces(pos); }
      Lines(id, pos);
    }
  }

  /** A pass over two bars off a terminal: each is written when it needs a
      redraw, in order, and loses its flag. */
  lemma PairPass(a: Entry, b: Entry, now: nat)
    ensures Frame([a, b], false, now)
            == (if Selected(a.state, false) then Segment(a.state, now) else "")
               + (if Selected(b.state, false) then Segment(b.state, now) else "")
    ensures Cleared([a, b], false) == [ClearEntry(a, false), ClearEntry(b, false)]
  {
    var r := [a, b];
    assert r[..1] == [a] && [a][..0] == [];
    assert Frame([a], false, now) == "" + (if Selected(a.state, false) then Segment(a.state, now) else "");
  }

  /** The manager of the scenario: a file sink, no forced ANSI choice, a
      one-second interval, no ticker and nothing erased yet. */
  function St(file: Scheduler.Sink, states: seq<Entry>, nextId: nat, lastDraw: int,
              needRedraw: bool, out: string, alive: bool): Scheduler.ManagerState
  {
    Scheduler.ManagerState(states, None, NANOS, file, false, nextId, lastDraw, 0, needRedraw, out, alive)
  }

  lemma Opened(initial: Scheduler.Sink, file: Scheduler.Sink, now: nat)
    ensures Scheduler.WithSink(Scheduler.New(NANOS, now, initial), file)
            == St(file, [], 0, now - NANOS, true, "", true)
  {
  }

  /** The first bar: registered with id 0 and written by the forced draw. */
  lemma FirstBar(file: Scheduler.Sink, last: int, now: nat)
    requires !file.isTerminal
    ensures Scheduler.CreateBar(St(file, [], 0, last, true, "", true), 10, D1, TEMPLATE_SIMPLE, true, now)
            == St(file, [BarAt(0, 0, false, now)], 1, now, false, Lines(0, 0), true)
  {
    var b := BarAt(0, 0, true, now);
    assert Scheduler.NewBar(10, D1, TEMPLATE_SIMPLE, true, now) == b.state;
    assert Frame([b], false, now) == Segment(b.state, now) by {
      assert [b][..0] == [];
    }
    assert Cleared([b], false) == [BarAt(0, 0, false, now)] by {
      assert [b][..0] == [];
    }
    SegmentOf(0, 0, true, now, now);
  }

  /** The second bar: id 1, and the forced draw writes only it, the first
      one having been written already. */
  lemma SecondBar(file: Scheduler.Sink, c0: nat, last: int, now: nat, o: string)
    requires !file.isTerminal
    ensures Scheduler.CreateBar(St(file, [BarAt(0, 0, false, c0)], 1, last, false, o, true), 10, D2, TEMPLATE_SIMPLE, true, now)
            == St(file, [BarAt(0, 0, false, c0), BarAt(1, 0, false, now)], 2, now, false, o + Lines(1, 0), true)
  {
    var a := BarAt(0, 0, false, c0);
    var b := BarAt(1, 0, true, now);
    assert Scheduler.NewBar(10, D2, TEMPLATE_SIMPLE, true, now) == b.state;
    InsertFresh([a], b);
    assert [a] + [b] == [a, b];
    var m := St(file, [a], 1, last, false, o, true);
    var m2 := St(file, [a, b], 2, last, true, o, true);
    assert Scheduler.MarkRedraw(Scheduler.Registered(m, 10, D2, TEMPLATE_SIMPLE, true, now)) == m2;
    assert Scheduler.Draw(m2, true, now) == Scheduler.DrawInner(m2.(needRedraw := false), false, now).(lastDraw := now);
    PairPass(a, b, now);
    assert "" + Segment(b.state, now) == Segment(b.state, now);
    SegmentOf(1, 0, true, now, now);
  }

  /** `set_pos` on the first bar less than a second after the last draw:
      its state changes, the manager is marked for a redraw, nothing is
      written. */
  lemma SetFirst(file: Scheduler.Sink, c0: nat, c1: nat, last: int, now: nat, o: string,
                 p: u64, q: u64, r0: bool, r1: bool, nd: bool, x: u64)
    requires Since(now, last) < NANOS
    ensures Scheduler.Update(St(file, [BarAt(0, p, r0, c0), BarAt(1, q, r1, c1)], 2, last, nd, o, true), 0, Scheduler.SetPos(x), now)
            == St(file, [BarAt(0, x, true, c0), BarAt(1, q, r1, c1)], 2, last, true, o, true)
  {
    var r := [BarAt(0, p, r0, c0), BarAt(1, q, r1, c1)];
    assert r[..1] == [BarAt(0, p, r0, c0)];
    assert Lookup(r, 0) == Some(0);
    assert r[0 := BarAt(0, x, true, c0)] == [BarAt(0, x, true, c0), BarAt(1, q, r1, c1)];
  }

  /** `set_pos` on the second bar less than a second after the last draw. */
  lemma SetSecond(file: Scheduler.Sink, c0: nat, c1: nat, last: int, now: nat, o: string,
                  p: u64, q: u64, r0: bool, r1: bool, nd: bool, x: u64)
    requires Since(now, last) < NANOS
    ensures Scheduler.Update(St(file, [BarAt(0, p, r0, c0), BarAt(1, q, r1, c1)], 2, last, nd, o, true), 1, Scheduler.SetPos(x), now)
            == St(file, [BarAt(0, p, r0, c0), BarAt(1, x, true, c1)], 2, last, true, o, true)
  {
    var r := [BarAt(0, p, r0, c0), BarAt(1, q, r1, c1)];
    assert Lookup(r, 1) == Some(1);
    assert r[1 := BarAt(1, x, true, c1)] == [BarAt(0, p, r0, c0), BarAt(1, x, true, c1)];
  }

  /** A forced draw with both bars dirty writes both, in id order. */
  lemma DrawBoth(file: Scheduler.Sink, c0: nat, c1: nat, last: int, now: nat, o: string, p: u64, q: u64)
    requires !file.isTerminal && p < 10 && q < 10
    ensures Scheduler.Draw(St(file, [BarAt(0, p, true, c0), BarAt(1, q, true, c1)], 2, last, true, o, true), true, now)
            == St(file, [BarAt(0, p, false, c0), BarAt(1, q, false, c1)], 2, now, false, o + Lines(0, p) + Lines(1, q), true)
  {
    var a, b := BarAt(0, p, true, c0), BarAt(1, q, true, c1);
    var m := St(file, [a, b], 2, last, true, o, true);
    assert Scheduler.Draw(m, true, now) == Scheduler.DrawInner(m.(needRedraw := false), false, now).(lastDraw := now);
    PairPass(a, b, now);
    SegmentOf(0, p, true, c0, now);
    SegmentOf(1, q, true, c1, now);
    assert o + (Lines(0, p) + Lines(1, q)) == o + Lines(0, p) + Lines(1, q);
  }

  /** The clock readings of the nine calls of the scenario, in order. The
      expected text holds only when both pairs of `set_pos` calls come
      less than a second (the manager's interval) after the forced draw
      before them: the second `create_bar` and the explicit `draw(true)`. */
  predicate Timely(t0: nat, t1: nat, t2: nat, t3: nat, t4: nat, t5: nat, t6: nat, t7: nat, t8: nat)
  {
    && t0 <= t1 <= t2 <= t3 <= t4 <= t5 <= t6 <= t7 <= t8
    && t3 < t2 + NANOS && t4 < t2 + NANOS
    && t6 < t5 + NANOS && t7 < t5 + NANOS
  }

  /** The scenario on state values: whatever sink the manager started
      with, and whenever the calls happen within the interval the test
      relies on, the file ends up holding the twelve expected lines. */
  lemma TraceOutput(initial: Scheduler.Sink, file: Scheduler.Sink,
                    t0: nat, t1: nat, t2: nat, t3: nat, t4: nat, t5: nat, t6: nat, t7: nat, t8: nat)
    requires !file.isTerminal
    requires Timely(t0, t1, t2, t3, t4, t5, t6, t7, t8)
    ensures
      var m1 := Scheduler.WithSink(Scheduler.New(NANOS, t0, initial), file);
      var m2 := Scheduler.CreateBar(m1, 10, D1, TEMPLATE_SIMPLE, true, t1);
      var m3 := Scheduler.CreateBar(m2, 10, D2, TEMPLATE_SIMPLE, true, t2);
      var m4 := Scheduler.Update(m3, 0, Scheduler.SetPos(2), t3);
      var m5 := Scheduler.Update(m4, 1, Scheduler.SetPos(3), t4);
      var m6 := Scheduler.Draw(m5, true, t5);
      var m7 := Scheduler.Update(m6, 0, Scheduler.SetPos(5), t6);
      var m8 := Scheduler.Update(m7, 1, Scheduler.SetPos(7), t7);
      var m9 := Scheduler.Teardown(m8, t8);
      m9.out == EXPECTED && !m9.alive
  {
    var m1 := Scheduler.WithSink(Scheduler.New(NANOS, t0, initial), file);
    Opened(initial, file, t0);
    var m2 := Scheduler.CreateBar(m1, 10, D1, TEMPLATE_SIMPLE, true, t1);
    FirstBar(file, t0 - NANOS, t1);
    var o2 := Lines(0, 0);
    var m3 := Scheduler.CreateBar(m2, 10, D2, TEMPLATE_SIMPLE, true, t2);
    SecondBar(file, t1, t1, t2, o2);
    var o3 := o2 + Lines(1, 0);
    var m4 := Scheduler.Update(m3, 0, Scheduler.SetPos(2), t3);
    SetFirst(file, t1, t2, t2, t3, o3, 0, 0, false, false, false, 2);
    var m5 := Scheduler.Update(m4, 1, Scheduler.SetPos(3), t4);
    SetSecond(file, t1, t2, t2, t4, o3, 2, 0, true, false, true, 3);
    var m6 := Scheduler.Draw(m5, true, t5);
    DrawBoth(file, t1, t2, t2, t5, o3, 2, 3);
    var o6 := o3 + Lines(0, 2) + Lines(1, 3);
    var m7 := Scheduler.Update(m6, 0, Scheduler.SetPos(5), t6);
    SetFirst(file, t1, t2, t5, t6, o6, 2, 3, false, false, false, 5);
    var m8 := Scheduler.Update(m7, 1, Scheduler.SetPos(7), t7);
    SetSecond(file, t1, t2, t5, t7, o6, 5, 3, true, false, true, 7);
    DrawBoth(file, t1, t2, t5, t8, o6, 5, 7);
    CountsText();
  }

  /** The same scenario through the objects: `Manager::new`, `with_file`,
      two `create_bar` calls, `set_pos` on each, a forced `draw`, two more
      `set_pos` calls and the manager's drop, each at its own clock
      reading. The bars outlive the manager and, dropped afterwards, no
      longer reach it. */
  method Run(initial: Scheduler.Sink, file: Scheduler.Sink,
             t0: nat, t1: nat, t2: nat, t3: nat, t4: nat, t5: nat, t6: nat, t7: nat, t8: nat)
    returns (output: string, alive1: bool)
    requires !file.isTerminal
    requires Timely(t0, t1, t2, t3, t4, t5, t6, t7, t8)
    ensures output == EXPECTED
    ensures !alive1
  {
    var manager := new Kyuri.Manager(NANOS, t0, initial);
    manager.WithSink(file);
    var pb1 := manager.CreateBar(10, D1, TEMPLATE_SIMPLE, true, t1);
    assert pb1.id == 0;
    var pb2 := manager.CreateBar(10, D2, TEMPLATE_SIMPLE, true, t2);
    assert pb2.id == 1;
    pb1.SetPos(2, t3);
    pb2.SetPos(3, t4);
    manager.Draw(true, t5);
    pb1.SetPos(5, t6);
    pb2.SetPos(7, t7);
    ghost var m8 := manager.Snap();
    manager.Drop(t8);
    assert manager.Snap() == Scheduler.Teardown(m8, t8);
    TraceOutput(initial, file, t0, t1, t2, t3, t4, t5, t6, t7, t8);
    output := manager.out;
    pb1.Drop(t8);
    pb2.Drop(t8);
    alive1 := pb1.Alive();
  }
}
