/** `BarState` and `BarState::render` (src/lib.rs): one bar's text, built
    by walking the compiled template. */
module BarRender {
  import opened Strings
  import opened Template
  import opened Format

  const U64_LIMIT: nat := 0x1_0000_0000_0000_0000
  const U64_MAX: nat := U64_LIMIT - 1
  /** `usize::MAX` on a 64-bit target. */
  const USIZE_MAX: nat := U64_MAX
  /** Nanoseconds per second: the clock counts nanoseconds. */
  const NANOS: nat := 1_000_000_000

  type u64 = x: nat | x < U64_LIMIT

  /** One bar's state. `createdAt` is a reading of the nanosecond clock. */
  datatype BarState = BarState(
    len: u64,
    pos: u64,
    message: string,
    template: Template,
    createdAt: nat,
    visible: bool,
    needRedraw: bool)

  /** `Instant` subtraction: a later reading minus an earlier one,
      saturating at zero. */
  function Since(now: int, earlier: int): (d: nat)
    ensures now >= earlier ==> earlier + d == now
    ensures now < earlier ==> d == 0
  {
    if now >= earlier then now - earlier else 0
  }

  /** Whole seconds since the bar was created. */
  function ElapsedSecs(st: BarState, now: nat): nat
  {
    Since(now, st.createdAt) / NANOS
  }

  /** `bytes_per_second as u64`: pos over the elapsed time, cast with
      saturation (∞ to u64::MAX, NaN to 0). */
  function Rate(pos: nat, elapsed: nat): (r: nat)
    ensures r <= U64_MAX
    ensures elapsed > 0 ==> r * elapsed <= pos * NANOS
    ensures elapsed > 0 && r < U64_MAX ==> pos * NANOS < (r + 1) * elapsed
    ensures elapsed == 0 ==> (r == 0 <==> pos == 0)
  {
    if elapsed == 0 then (if pos == 0 then 0 else U64_MAX)
    else if pos * NANOS / elapsed > U64_MAX then U64_MAX
    else pos * NANOS / elapsed
  }

  /** `len - pos` on u64, wrapping as a release build does (a debug
      build panics when pos > len). */
  function Remaining(len: u64, pos: u64): (r: u64)
    ensures pos <= len ==> r == len - pos
    ensures pos > len ==> r == len + U64_LIMIT - pos
  {
    (len - pos) % U64_LIMIT
  }

  /** ⌊a·b/c⌋. */
  function Scaled(a: nat, b: nat, c: nat): (r: nat)
    requires c > 0
    ensures r * c <= a * b < (r + 1) * c
  {
    a * b / c
  }

  /** Seconds left for `{eta}` when pos > 0: the remaining count over the
      rate (pos per elapsed second), cast with saturation. A zero elapsed
      time makes the rate infinite and the eta 0. */
  function EtaSecs(st: BarState, now: nat): (r: nat)
    requires st.pos > 0
    ensures r <= U64_MAX
    ensures Since(now, st.createdAt) == 0 ==> r == 0
    ensures var e := Since(now, st.createdAt);
      e > 0 && r < U64_MAX ==>
        r * (st.pos * NANOS) <= Remaining(st.len, st.pos) * e < (r + 1) * (st.pos * NANOS)
  {
    var e := Since(now, st.createdAt);
    if e == 0 then 0
    else
      var s := Scaled(Remaining(st.len, st.pos), e, st.pos * NANOS);
      if s > U64_MAX then U64_MAX else s
  }

  lemma FillBound(pos: nat, len: nat, width: nat, f: nat)
    requires 0 < len && f * len <= pos * width
    ensures pos <= len ==> f <= width
  {
  }

  /** The fill of a `Bar(width)` part: `pos / len * width` cast to usize. */
  function Fill(pos: nat, len: nat, width: nat): (f: nat)
    ensures f <= USIZE_MAX
    ensures len > 0 && f < USIZE_MAX ==> f * len <= pos * width < (f + 1) * len
    ensures len > 0 && pos <= len ==> f <= width
    ensures len == 0 && pos > 0 && width > 0 ==> f == USIZE_MAX
    ensures pos == 0 ==> f == 0
  {
    if len == 0 then (if pos == 0 || width == 0 then 0 else USIZE_MAX)
    else
      var f := Scaled(pos, width, len);
      FillBound(pos, len, width, f);
      if f > USIZE_MAX then USIZE_MAX else f
  }

  /** The bar glyph: `[`, then `=` for the filled cells; up to the width
      the rest is blank and closed by `]`, past the width the excess is `!`
      and there is no `]`. */
  function BarGlyph(width: nat, fill: nat): (r: string)
  {
    if fill <= width then "[" + Repeat('=', fill) + Repeat(' ', width - fill) + "]"
    else "[" + Repeat('=', width) + Repeat('!', fill - width)
  }

  /** The glyph cell by cell. */
  lemma BarGlyphShape(width: nat, fill: nat)
    ensures var r := BarGlyph(width, fill);
      && (fill <= width ==> |r| == width + 2 && r[width + 1] == ']')
      && (fill > width ==> |r| == fill + 1 && ']' !in r)
      && r[0] == '['
      && (forall i :: 1 <= i < |r| && i <= fill && i <= width ==> r[i] == '=')
      && (forall i :: fill < i <= width ==> r[i] == ' ')
      && (forall i :: width < i <= fill ==> r[i] == '!')
  {
    var r := BarGlyph(width, fill);
    if fill <= width {
      var a, b := Repeat('=', fill), Repeat(' ', width - fill);
      assert r == "[" + a + b + "]";
      forall i | 1 <= i <= fill ensures r[i] == '=' { assert r[i] == a[i - 1]; }
      forall i | fill < i <= width ensures r[i] == ' ' { assert r[i] == b[i - 1 - fill]; }
    } else {
      var a, b := Repeat('=', width), Repeat('!', fill - width);
      assert r == "[" + a + b;
      forall i | 1 <= i <= width ensures r[i] == '=' { assert r[i] == a[i - 1]; }
      forall i | width < i <= fill ensures r[i] == '!' { assert r[i] == b[i - 1 - width]; }
      assert ']' !in r by {
        forall i | 0 <= i < |r| ensures r[i] != ']' {
          if i >= 1 && i <= width { assert r[i] == '='; }
          else if i > width { assert r[i] == '!'; }
        }
      }
    }
  }

  const DONE := "✅"
  const FRESH := "\U{1F195}"
  const OVERFLOW := "\U{1F4A5}"
  const BUSY := "⏳"

  /** The state emoji, tests in source order. */
  function Emoji(pos: nat, len: nat): (r: string)
    ensures r == DONE <==> pos == len
    ensures r == FRESH <==> pos != len && pos == 0
    ensures r == OVERFLOW <==> pos != len && pos != 0 && pos > len
    ensures r == BUSY <==> 0 < pos < len
  {
    if pos == len then DONE
    else if pos == 0 then FRESH
    else if pos > len then OVERFLOW
    else BUSY
  }

  /** What one instruction contributes to the rendered text. */
  function RenderPart(p: TemplatePart, st: BarState, now: nat): string
  {
    match p
    case Text(text) => text
    case Newline => "\n"
    case Message => st.message
    case Elapsed => DurationToHuman(ElapsedSecs(st, now))
    case Bytes => BytesToHuman(st.pos)
    case Pos => NatToString(st.pos)
    case TotalBytes => BytesToHuman(st.len)
    case Total => NatToString(st.len)
    case BytesPerSecond => BytesToHuman(Rate(st.pos, Since(now, st.createdAt))) + "/s"
    case Eta => if st.pos == 0 then "Unknown" else DurationToHuman(EtaSecs(st, now))
    case Bar(size) => BarGlyph(size, Fill(st.pos, st.len, size))
    case StateEmoji => Emoji(st.pos, st.len)
  }

  function RenderParts(parts: seq<TemplatePart>, st: BarState, now: nat): string
  {
    if parts == [] then "" else RenderPart(parts[0], st, now) + RenderParts(parts[1..], st, now)
  }

  /** `BarState::render`: the instructions' texts, in order. */
  function Render(st: BarState, now: nat): string
  {
    RenderParts(st.template.parts, st, now)
  }

  /** Rendering is compositional: the text of a concatenation is the
      concatenation of the texts. */
  lemma {:induction false} RenderPartsAppend(a: seq<TemplatePart>, b: seq<TemplatePart>, st: BarState, now: nat)
    ensures RenderParts(a + b, st, now) == RenderParts(a, st, now) + RenderParts(b, st, now)
    decreases |a|
  {
    if a == [] {
      assert a + b == b;
    } else {
      assert (a + b)[0] == a[0];
      assert (a + b)[1..] == a[1..] + b;
      RenderPartsAppend(a[1..], b, st, now);
      var h := RenderPart(a[0], st, now);
      calc {
        RenderParts(a + b, st, now);
        h + RenderParts(a[1..] + b, st, now);
        h + (RenderParts(a[1..], st, now) + RenderParts(b, st, now));
        (h + RenderParts(a[1..], st, now)) + RenderParts(b, st, now);
      }
    }
  }

  predicate IsLiteral(p: TemplatePart)
  {
    p.Text? || p.Newline?
  }

  /** Text and Newline instructions render to their literal text. */
  lemma {:induction false} RenderLiteralParts(parts: seq<TemplatePart>, st: BarState, now: nat)
    requires forall i :: 0 <= i < |parts| ==> IsLiteral(parts[i])
    ensures RenderParts(parts, st, now) == JoinText(parts)
    decreases |parts|
  {
    if parts != [] {
      RenderLiteralParts(parts[1..], st, now);
    }
  }

  lemma LiteralPartsLiteral(u: string)
    ensures forall i :: 0 <= i < |LiteralParts(u)| ==> IsLiteral(LiteralParts(u)[i])
  {
    if u != "" {
      TextPartsShape(u);
    }
  }

  /** A template without tags renders to its literal reading, whatever
      the bar's state. */
  lemma RenderTagFree(template: string, st: BarState, now: nat)
    requires Unescaped(template).Some?
    ensures RenderParts(Compile(template), st, now) == Unescaped(template).value
  {
    CompileLiteral(template);
    LiteralPartsLiteral(Unescaped(template).value);
    RenderLiteralParts(Compile(template), st, now);
  }

  /** The instructions of a literal text render to that text. */
  lemma RenderLiteral(u: string, st: BarState, now: nat)
    ensures RenderParts(LiteralParts(u), st, now) == u
  {
    if u != "" {
      LiteralPartsLiteral(u);
      RenderLiteralParts(LiteralParts(u), st, now);
      TextPartsShape(u);
    }
  }

  lemma RenderSingle(p: TemplatePart, st: BarState, now: nat)
    ensures RenderParts([p], st, now) == RenderPart(p, st, now)
  {
    assert RenderParts([p], st, now) == RenderPart(p, st, now) + RenderParts([], st, now);
  }

  /** A known tag between literal text and any suffix renders as the
      literal reading of the text, the field's value, then the suffix. */
  lemma RenderTagInContext(pre: string, t: string, post: string, st: BarState, now: nat)
    requires Unescaped(pre).Some?
    requires '}' !in t
    requires t == [] || t[0] != '{'
    requires TagPart(t).Some?
    ensures RenderParts(Compile(pre + "{" + t + "}" + post), st, now)
            == Unescaped(pre).value + RenderPart(TagPart(t).value, st, now)
               + RenderParts(Compile(post), st, now)
  {
    var u := Unescaped(pre).value;
    var p := TagPart(t).value;
    var lit, rest := LiteralParts(u), Compile(post);
    assert TagParts(t) == [p];
    calc {
      RenderParts(Compile(pre + "{" + t + "}" + post), st, now);
      { TagInContext(pre, t, post); }
      RenderParts(lit + [p] + rest, st, now);
      { RenderPartsAppend(lit + [p], rest, st, now); }
      RenderParts(lit + [p], st, now) + RenderParts(rest, st, now);
      { RenderPartsAppend(lit, [p], st, now); }
      RenderParts(lit, st, now) + RenderParts([p], st, now) + RenderParts(rest, st, now);
      { RenderLiteral(u, st, now); RenderSingle(p, st, now); }
      u + RenderPart(p, st, now) + RenderParts(rest, st, now);
    }
  }

  /** The fill never runs past the width while pos ≤ len, so the glyph is
      closed and exactly width + 2 long. */
  lemma GlyphClosedUntilFull(pos: nat, len: nat, width: nat)
    requires 0 < len && pos <= len
    ensures var r := BarGlyph(width, Fill(pos, len, width));
      |r| == width + 2 && r[|r| - 1] == ']'
  {
    BarGlyphShape(width, Fill(pos, len, width));
  }

  /** Half way: len 100, pos 50, width 20 fills 10 cells. */
  lemma GlyphHalfExample()
    ensures Fill(50, 100, 20) == 10
    ensures BarGlyph(20, 10) == "[" + Repeat('=', 10) + Repeat(' ', 10) + "]"
  {
  }

  /** Overrun: len 10, pos 15, width 10 prints ten `=`, five `!`, no `]`,
      and the emoji is the overflow one. */
  lemma GlyphOverrunExample()
    ensures Fill(15, 10, 10) == 15
    ensures BarGlyph(10, 15) == "[" + Repeat('=', 10) + Repeat('!', 5)
    ensures Emoji(15, 10) == OVERFLOW
  {
  }
}
