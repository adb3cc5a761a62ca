/** The template compiler of src/template.rs: a single pass over the
    template text that cuts it into literal text and `{tag}` fragments,
    followed by a pass that turns fragments into render instructions. */
module Template {
  import opened Strings

  /** One render instruction. `Bar` and `StateEmoji` are rendered by
      `BarState::render` but never produced by this revision's parser. */
  datatype TemplatePart =
    | Newline
    | Message
    | Elapsed
    | Bytes
    | Pos
    | TotalBytes
    | Total
    | BytesPerSecond
    | Eta
    | Text(text: string)
    | Bar(size: nat)
    | StateEmoji

  datatype Template = Template(parts: seq<TemplatePart>)

  /** What the scanner of `Template::new` collects before classifying tags. */
  datatype Fragment = TextFragment(text: string) | TagFragment(content: string)

  /** The nine fields the tag table can produce. */
  predicate IsTableField(p: TemplatePart)
  {
    p.Message? || p.Elapsed? || p.Bytes? || p.Pos? || p.TotalBytes? || p.Total?
    || p.BytesPerSecond? || p.Eta?
  }

  /** The tag table: the field a `{tag}` stands for, or None for an unknown tag. */
  function TagPart(tag: string): (r: Option<TemplatePart>)
    ensures r.Some? <==> tag in KNOWN_TAGS
    ensures r.Some? ==> IsTableField(r.value)
  {
    if tag == "msg" || tag == "message" then Some(Message)
    else if tag == "elapsed" || tag == "elapsed_precise" then Some(Elapsed)
    else if tag == "bytes" then Some(Bytes)
    else if tag == "pos" then Some(Pos)
    else if tag == "total_bytes" then Some(TotalBytes)
    else if tag == "total" then Some(Total)
    else if tag == "bytes_per_second" || tag == "bytes_per_sec" then Some(BytesPerSecond)
    else if tag == "eta" then Some(Eta)
    else None
  }

  /** The tag names `Template::new` recognises. */
  const KNOWN_TAGS: set<string> :=
    {"msg", "message", "elapsed", "elapsed_precise", "bytes", "pos",
     "total_bytes", "total", "bytes_per_second", "bytes_per_sec", "eta"}

  /** The tag table, name by name. */
  lemma TagTable()
    ensures TagPart("msg") == Some(Message) && TagPart("message") == Some(Message)
    ensures TagPart("elapsed") == Some(Elapsed) && TagPart("elapsed_precise") == Some(Elapsed)
    ensures TagPart("bytes") == Some(Bytes) && TagPart("pos") == Some(Pos)
    ensures TagPart("total_bytes") == Some(TotalBytes) && TagPart("total") == Some(Total)
    ensures TagPart("bytes_per_second") == Some(BytesPerSecond)
    ensures TagPart("bytes_per_sec") == Some(BytesPerSecond)
    ensures TagPart("eta") == Some(Eta)
  {
  }

  /** The crate's documentation also lists `len`, `bar`, `barNUM` and
      `state_emoji`, which the table does not know: they stay literal text. */
  lemma DocumentedTagsUnknown()
    ensures TagPart("len") == None && TagPart("bar") == None
    ensures TagPart("bar20") == None && TagPart("state_emoji") == None
  {
  }

  /** Text pieces separated by Newline instructions. */
  function Interleave(pieces: seq<string>): seq<TemplatePart>
  {
    if |pieces| == 0 then []
    else if |pieces| == 1 then [Text(pieces[0])]
    else [Text(pieces[0]), Newline] + Interleave(pieces[1..])
  }

  /** What `push_text` appends for a literal text. */
  function TextParts(text: string): seq<TemplatePart>
  {
    Interleave(Split(text, '\n'))
  }

  /** What a whole fragment contributes to the instruction list. */
  function FragmentParts(f: Fragment): seq<TemplatePart>
  {
    match f
    case TextFragment(text) => TextParts(text)
    case TagFragment(tag) => TagParts(tag)
  }

  function TagParts(tag: string): seq<TemplatePart>
  {
    match TagPart(tag)
    case Some(p) => [p]
    case None => TextParts("{" + tag + "}")
  }

  function PartsOf(fragments: seq<Fragment>): seq<TemplatePart>
  {
    if fragments == [] then [] else FragmentParts(fragments[0]) + PartsOf(fragments[1..])
  }

  /** Position of the first `}` in `s`, or `|s|` when there is none. */
  function CloseIndex(s: string): (k: nat)
    ensures k <= |s|
    ensures '}' !in s[..k]
    ensures k < |s| ==> s[k] == '}'
  {
    if s == [] || s[0] == '}' then 0
    else
      var k := 1 + CloseIndex(s[1..]);
      assert s[..k] == [s[0]] + s[1..][..k - 1];
      k
  }

  /** The pending text, pushed as a fragment when non-empty. */
  function Flush(current: string): seq<Fragment>
  {
    if current == "" then [] else [TextFragment(current)]
  }

  /** The fragments the scanner emits for the rest `s` of the input when
      `current` is the literal text collected so far. */
  function Fragments(s: string, current: string): seq<Fragment>
    decreases |s|
  {
    if s == [] then Flush(current)
    else if s[0] == '{' then
      if |s| >= 2 && s[1] == '{' then Fragments(s[2..], current + "{")
      else
        var k := CloseIndex(s[1..]);
        if k < |s| - 1 then Flush(current) + [TagFragment(s[1..k + 1])] + Fragments(s[k + 2..], "")
        else Flush(current) + [TextFragment(s)]
    else if s[0] == '}' then
      if |s| >= 2 && s[1] == '}' then Fragments(s[2..], current + "}")
      else Fragments(s[1..], current + "}")
    else Fragments(s[1..], current + [s[0]])
  }

  /** The instruction list `Template::new` builds for `template`. */
  function Compile(template: string): seq<TemplatePart>
  {
    PartsOf(Fragments(template, ""))
  }

  // ---------------------------------------------------------------------
  // The compiler itself, as the source runs it.

  lemma {:induction false} InterleaveSnoc(pieces: seq<string>, x: string)
    ensures Interleave(pieces + [x])
            == Interleave(pieces) + (if pieces == [] then [] else [Newline]) + [Text(x)]
    decreases |pieces|
  {
    if |pieces| > 1 {
      assert (pieces + [x])[1..] == pieces[1..] + [x];
      InterleaveSnoc(pieces[1..], x);
    }
  }

  /** `push_text`: appends the Text/Newline instructions of `text`. */
  method PushText(results: seq<TemplatePart>, text: string) returns (r: seq<TemplatePart>)
    ensures r == results + TextParts(text)
  {
    var texts := Split(text, '\n');
    r := results;
    for j := 0 to |texts|
      invariant r == results + Interleave(texts[..j])
    {
      if j > 0 {
        r := r + [Newline];
      }
      r := r + [Text(texts[j])];
      InterleaveSnoc(texts[..j], texts[j]);
      assert texts[..j + 1] == texts[..j] + [texts[j]];
    }
    assert texts[..|texts|] == texts;
  }

  lemma CloseIndexUnique(s: string, k: nat)
    requires k <= |s| && '}' !in s[..k]
    requires k < |s| ==> s[k] == '}'
    ensures CloseIndex(s) == k
  {
    var c := CloseIndex(s);
    forall j | 0 <= j < k ensures s[j] != '}' {
      assert s[..k][j] == s[j];
    }
    forall j | 0 <= j < c ensures s[j] != '}' {
      assert s[..c][j] == s[j];
    }
  }

  lemma {:induction false} PartsOfAppend(a: seq<Fragment>, b: seq<Fragment>)
    ensures PartsOf(a + b) == PartsOf(a) + PartsOf(b)
    decreases |a|
  {
    if a != [] {
      assert (a + b)[0] == a[0];
      assert (a + b)[1..] == a[1..] + b;
      PartsOfAppend(a[1..], b);
      calc {
        PartsOf(a + b);
        FragmentParts(a[0]) + PartsOf(a[1..] + b);
        FragmentParts(a[0]) + (PartsOf(a[1..]) + PartsOf(b));
        (FragmentParts(a[0]) + PartsOf(a[1..])) + PartsOf(b);
      }
    } else {
      assert a + b == b;
    }
  }

  /** Escaped brace: `{{` or `}}` adds one brace to the pending text. */
  lemma ScanEscaped(template: string, i: nat, current: string)
    requires i + 1 < |template| && template[i] == template[i + 1]
    requires template[i] == '{' || template[i] == '}'
    ensures Fragments(template[i..], current) == Fragments(template[i + 2..], current + [template[i]])
  {
    assert template[i..][2..] == template[i + 2..];
  }

  /** A lone `}` is kept as literal text. */
  lemma ScanLoneClose(template: string, i: nat, current: string)
    requires i < |template| && template[i] == '}'
    requires i + 1 == |template| || template[i + 1] != '}'
    ensures Fragments(template[i..], current) == Fragments(template[i + 1..], current + "}")
  {
    assert template[i..][1..] == template[i + 1..];
  }

  /** Any other character is kept as literal text. */
  lemma ScanPlain(template: string, i: nat, current: string)
    requires i < |template| && template[i] != '{' && template[i] != '}'
    ensures Fragments(template[i..], current) == Fragments(template[i + 1..], current + [template[i]])
  {
    assert template[i..][1..] == template[i + 1..];
  }

  /** A `{` (not doubled) closed by the `}` at index j opens a tag. */
  lemma ScanTag(template: string, i: nat, j: nat, current: string)
    requires i < j < |template| && template[i] == '{' && template[i + 1] != '{'
    requires template[j] == '}' && '}' !in template[i + 1..j]
    ensures Fragments(template[i..], current)
            == Flush(current) + [TagFragment(template[i + 1..j])] + Fragments(template[j + 1..], "")
  {
    var s := template[i..];
    assert s[1..] == template[i + 1..];
    assert s[1..][..j - i - 1] == template[i + 1..j];
    CloseIndexUnique(s[1..], j - i - 1);
    assert s[1..j - i] == template[i + 1..j];
    assert s[j - i + 1..] == template[j + 1..];
  }

  /** A `{` (not doubled) with no later `}` keeps the rest verbatim. */
  lemma ScanUnterminated(template: string, i: nat, current: string)
    requires i < |template| && template[i] == '{'
    requires i + 1 == |template| || template[i + 1] != '{'
    requires '}' !in template[i + 1..]
    ensures Fragments(template[i..], current) == Flush(current) + [TextFragment(template[i..])]
  {
    var s := template[i..];
    assert s[1..] == template[i + 1..];
    assert s[1..][..|s| - 1] == s[1..];
    CloseIndexUnique(s[1..], |s| - 1);
  }

  /** `Template::new`: scans the characters once, collecting literal text
      and tag fragments, then maps each fragment to instructions. */
  method NewTemplate(template: string) returns (t: Template)
    ensures t.parts == Compile(template)
  {
    var fragments := ScanFragments(template);
    var results := FragmentsToParts(fragments);
    t := Template(results);
  }

  /** The inner `for ch2 in chars.by_ref()` loop: reads a tag's content
      from index `start` up to the first `}`, consuming that `}` if found. */
  method ReadTag(template: string, start: nat) returns (content: string, found: bool, next: nat)
    requires start <= |template|
    ensures '}' !in content
    ensures found ==> start < next <= |template| && template[next - 1] == '}'
                      && content == template[start..next - 1]
    ensures !found ==> next == |template| && content == template[start..]
  {
    var i := start;
    content := "";
    found := false;
    while i < |template|
      invariant start <= i <= |template|
      invariant content == template[start..i]
      invariant '}' !in content
      decreases |template| - i
    {
      var ch2 := template[i];
      i := i + 1;
      if ch2 == '}' {
        found := true;
        break;
      }
      content := content + [ch2];
    }
    next := i;
  }

  /** A tag read up to its `}`: the flushed text and the tag stand for
      everything from the `{` on. */
  lemma TagRead(template: string, open: nat, next: nat, content: string,
                fragments: seq<Fragment>, current: string)
    requires open < |template| && template[open] == '{'
    requires open + 1 == |template| || template[open + 1] != '{'
    requires open + 1 < next <= |template| && template[next - 1] == '}'
    requires content == template[open + 1..next - 1] && '}' !in content
    ensures fragments + Flush(current) + [TagFragment(content)] + Fragments(template[next..], "")
            == fragments + Fragments(template[open..], current)
  {
    ScanTag(template, open, next - 1, current);
    var flushed, tag := Flush(current), [TagFragment(content)];
    AppendAssoc(fragments, flushed + tag, Fragments(template[next..], ""));
    AppendAssoc(fragments, flushed, tag);
  }

  /** A `{` with no `}` after it: the flushed text and the rest, kept
      verbatim as pending text, stand for everything from the `{` on. */
  lemma TagUnread(template: string, open: nat, content: string,
                  fragments: seq<Fragment>, current: string)
    requires open < |template| && template[open] == '{'
    requires open + 1 == |template| || template[open + 1] != '{'
    requires content == template[open + 1..] && '}' !in content
    ensures fragments + Flush(current) + Fragments([], "" + "{" + content)
            == fragments + Fragments(template[open..], current)
  {
    ScanUnterminated(template, open, current);
    assert template[open..] == "{" + content;
    assert "" + "{" + content == template[open..];
    assert Fragments([], template[open..]) == [TextFragment(template[open..])];
  }

  /** The `{` arm of the scanner when the next character is not `{`: flush
      the pending text, read the tag, and either push it or, when no `}`
      follows, keep `{` and the rest as pending text. */
  method OpenTag(template: string, open: nat, fragments: seq<Fragment>, current: string)
    returns (fragments': seq<Fragment>, current': string, next: nat)
    requires open < |template| && template[open] == '{'
    requires open + 1 == |template| || template[open + 1] != '{'
    ensures open < next <= |template|
    ensures fragments' + Fragments(template[next..], current')
            == fragments + Fragments(template[open..], current)
  {
    fragments', current' := fragments, current;
    if current' != "" {
      fragments' := fragments' + [TextFragment(current')];
      current' := "";
    }
    ghost var flushed := fragments';
    assert flushed == fragments + Flush(current);
    var content, found;
    content, found, next := ReadTag(template, open + 1);
    if found {
      fragments' := fragments' + [TagFragment(content)];
      TagRead(template, open, next, content, fragments, current);
    } else {
      current' := current' + "{" + content;
      TagUnread(template, open, content, fragments, current);
    }
  }

  /** First half of `Template::new`: the `while let` loop over the
      characters, with the inner loop that reads a tag's content. */
  method ScanFragments(template: string) returns (fragments: seq<Fragment>)
    ensures fragments == Fragments(template, "")
  {
    fragments := [];
    var current := "";
    var i := 0;
    while i < |template|
      invariant 0 <= i <= |template|
      invariant Fragments(template, "") == fragments + Fragments(template[i..], current)
      decreases |template| - i
    {
      var ch := template[i];
      if ch == '{' {
        if i + 1 < |template| && template[i + 1] == '{' {
          ScanEscaped(template, i, current);
          current := current + "{";
          i := i + 2;
        } else {
          fragments, current, i := OpenTag(template, i, fragments, current);
        }
      } else if ch == '}' {
        if i + 1 < |template| && template[i + 1] == '}' {
          ScanEscaped(template, i, current);
          current := current + "}";
          i := i + 2;
        } else {
          ScanLoneClose(template, i, current);
          current := current + "}";
          i := i + 1;
        }
      } else {
        ScanPlain(template, i, current);
        current := current + [ch];
        i := i + 1;
      }
    }
    if current != "" {
      fragments := fragments + [TextFragment(current)];
    }
  }

  /** Second half of `Template::new`: the loop over the fragments, looking
      each tag up in the table and pushing text through `push_text`. */
  method FragmentsToParts(fragments: seq<Fragment>) returns (results: seq<TemplatePart>)
    ensures results == PartsOf(fragments)
  {
    results := [];
    for j := 0 to |fragments|
      invariant results == PartsOf(fragments[..j])
    {
      assert fragments[..j + 1] == fragments[..j] + [fragments[j]];
      PartsOfAppend(fragments[..j], [fragments[j]]);
      assert PartsOf([fragments[j]]) == FragmentParts(fragments[j]) + PartsOf([]);
      match fragments[j]
      case TextFragment(text) =>
        results := PushText(results, text);
      case TagFragment(tag) =>
        var p := TagPart(tag);
        if p.Some? {
          results := results + [p.value];
        } else {
          results := PushText(results, "{" + tag + "}");
        }
    }
    assert fragments[..|fragments|] == fragments;
  }

  // ---------------------------------------------------------------------
  // What the compiler promises.

  /** Literal text of Text and Newline instructions (fields contribute nothing). */
  function JoinText(parts: seq<TemplatePart>): string
  {
    if parts == [] then ""
    else
      (match parts[0]
       case Text(s) => s
       case Newline => "\n"
       case _ => "") + JoinText(parts[1..])
  }

  lemma {:induction false} JoinTextAppend(a: seq<TemplatePart>, b: seq<TemplatePart>)
    ensures JoinText(a + b) == JoinText(a) + JoinText(b)
    decreases |a|
  {
    if a != [] {
      assert (a + b)[0] == a[0];
      assert (a + b)[1..] == a[1..] + b;
      JoinTextAppend(a[1..], b);
      var h := match a[0] case Text(s) => s case Newline => "\n" case _ => "";
      calc {
        JoinText(a + b);
        h + JoinText(a[1..] + b);
        h + (JoinText(a[1..]) + JoinText(b));
        (h + JoinText(a[1..])) + JoinText(b);
      }
    } else {
      assert a + b == b;
    }
  }

  lemma ShiftByTwo(i: int)
    requires i >= 2
    ensures (i - 2) % 2 == i % 2 && (i - 2) / 2 + 1 == i / 2
  {
  }

  /** The interleaving has every piece at an even index and a Newline at
      every odd index, and its literal text is the pieces joined by "\n". */
  lemma {:induction false} InterleaveShape(pieces: seq<string>)
    requires |pieces| >= 1
    ensures |Interleave(pieces)| == 2 * |pieces| - 1
    ensures forall i :: 0 <= i < |Interleave(pieces)| ==>
              Interleave(pieces)[i] == if i % 2 == 0 then Text(pieces[i / 2]) else Newline
    ensures JoinText(Interleave(pieces)) == Join(pieces, '\n')
    decreases |pieces|
  {
    if |pieces| > 1 {
      InterleaveShape(pieces[1..]);
      var head, rest := [Text(pieces[0]), Newline], Interleave(pieces[1..]);
      var all := Interleave(pieces);
      assert all == head + rest;
      forall i | 0 <= i < |all|
        ensures all[i] == if i % 2 == 0 then Text(pieces[i / 2]) else Newline
      {
        if i >= 2 {
          ShiftByTwo(i);
          assert all[i] == rest[i - 2];
          assert pieces[1..][(i - 2) / 2] == pieces[i / 2];
        }
      }
      JoinTextAppend(head, rest);
      assert JoinText(head) == pieces[0] + "\n";
    }
  }

  /** A literal fragment with k line breaks becomes k + 1 Text instructions
      (none containing a line break) alternating with k Newline
      instructions, and joining the texts with "\n" gives the fragment back. */
  lemma TextPartsShape(text: string)
    ensures var ps := TextParts(text);
      && |ps| == 2 * Count(text, '\n') + 1
      && (forall i :: 0 <= i < |ps| ==> (ps[i].Newline? <==> i % 2 == 1))
      && (forall i :: 0 <= i < |ps| && i % 2 == 0 ==> ps[i].Text? && '\n' !in ps[i].text)
      && JoinText(ps) == text
  {
    var pieces := Split(text, '\n');
    InterleaveShape(pieces);
    JoinSplit(text, '\n');
  }

  /** Reading of a template that holds no tag: `{{` stands for `{`, `}}` for
      `}`, a lone `}` for itself; a lone `{` opens a tag, so there is no
      literal reading (None). */
  function Unescaped(s: string): Option<string>
    decreases |s|
  {
    if s == [] then Some("")
    else if |s| >= 2 && s[0] == s[1] && (s[0] == '{' || s[0] == '}') then Prepend(s[0], Unescaped(s[2..]))
    else if s[0] == '{' then None
    else Prepend(s[0], Unescaped(s[1..]))
  }

  function Prepend(c: char, o: Option<string>): Option<string>
  {
    match o
    case Some(v) => Some([c] + v)
    case None => None
  }

  /** A doubled brace at the head of the input adds one brace to the
      pending text. */
  lemma FragmentsEscapedStep(s: string, current: string)
    requires |s| >= 2 && s[0] == s[1] && (s[0] == '{' || s[0] == '}')
    ensures Fragments(s, current) == Fragments(s[2..], current + [s[0]])
  {
  }

  /** Any other head character but `{` is literal text. */
  lemma FragmentsCharStep(s: string, current: string)
    requires s != [] && s[0] != '{'
    requires !(|s| >= 2 && s[0] == s[1] && s[0] == '}')
    ensures Fragments(s, current) == Fragments(s[1..], current + [s[0]])
  {
  }

  /** The escaped-brace case of `FragmentsLiteralPrefix`, given the claim
      for the rest of the prefix. */
  lemma LiteralPrefixEscaped(pre: string, x: string, current: string)
    requires Unescaped(pre).Some?
    requires |pre| >= 2 && pre[0] == pre[1] && (pre[0] == '{' || pre[0] == '}')
    requires Fragments(pre[2..] + x, current + [pre[0]])
             == Fragments(x, current + [pre[0]] + Unescaped(pre[2..]).value)
    ensures Fragments(pre + x, current) == Fragments(x, current + Unescaped(pre).value)
  {
    var s := pre + x;
    assert s[0] == pre[0] && s[1] == pre[1];
    FragmentsEscapedStep(s, current);
    assert s[2..] == pre[2..] + x;
    var v := Unescaped(pre[2..]).value;
    assert Unescaped(pre).value == [pre[0]] + v;
    assert current + [pre[0]] + v == current + ([pre[0]] + v);
  }

  /** Reading one unescaped character other than `{` in front of `t`. */
  lemma FragmentsCharFront(c: char, t: string, current: string)
    requires c != '{'
    requires c == '}' ==> t == [] || t[0] != '}'
    ensures Fragments([c] + t, current) == Fragments(t, current + [c])
  {
    var s := [c] + t;
    assert s[0] == c && s[1..] == t;
    FragmentsCharStep(s, current);
  }

  /** The empty template compiles to no parts. */
  lemma CompileEmpty()
    ensures Compile("") == []
  {
    assert Fragments("", "") == [];
  }

  /** The literal reading of a prefix that starts with a plain character. */
  lemma UnescapedCharFront(pre: string)
    requires Unescaped(pre).Some?
    requires pre != [] && !(|pre| >= 2 && pre[0] == pre[1] && (pre[0] == '{' || pre[0] == '}'))
    ensures pre[0] != '{' && Unescaped(pre[1..]).Some?
    ensures Unescaped(pre).value == [pre[0]] + Unescaped(pre[1..]).value
  {
  }

  /** Splitting the first character off a concatenation. */
  lemma ConsSplit(pre: string, x: string)
    requires pre != []
    ensures pre + x == [pre[0]] + (pre[1..] + x)
    ensures |pre| >= 2 ==> (pre[1..] + x)[0] == pre[1]
    ensures |pre| == 1 ==> pre[1..] + x == x
  {
  }

  /** The single-character case of `FragmentsLiteralPrefix`, given the
      claim for the rest of the prefix. */
  lemma LiteralPrefixChar(pre: string, x: string, current: string)
    requires Unescaped(pre).Some?
    requires x == [] || x[0] != '}'
    requires pre != [] && !(|pre| >= 2 && pre[0] == pre[1] && (pre[0] == '{' || pre[0] == '}'))
    requires Fragments(pre[1..] + x, current + [pre[0]])
             == Fragments(x, current + [pre[0]] + Unescaped(pre[1..]).value)
    ensures Fragments(pre + x, current) == Fragments(x, current + Unescaped(pre).value)
  {
    UnescapedCharFront(pre);
    ConsSplit(pre, x);
    FragmentsCharFront(pre[0], pre[1..] + x, current);
    AppendAssoc(current, [pre[0]], Unescaped(pre[1..]).value);
  }

  /** Scanning a tag-free prefix only adds its literal reading to the pending
      text (unless the next character could pair with a trailing `}`). */
  lemma {:induction false} FragmentsLiteralPrefix(pre: string, x: string, current: string)
    requires Unescaped(pre).Some?
    requires x == [] || x[0] != '}'
    ensures Fragments(pre + x, current) == Fragments(x, current + Unescaped(pre).value)
    decreases |pre|
  {
    if pre == [] {
      assert pre + x == x;
      assert current + Unescaped(pre).value == current;
    } else if |pre| >= 2 && pre[0] == pre[1] && (pre[0] == '{' || pre[0] == '}') {
      FragmentsLiteralPrefix(pre[2..], x, current + [pre[0]]);
      LiteralPrefixEscaped(pre, x, current);
    } else {
      FragmentsLiteralPrefix(pre[1..], x, current + [pre[0]]);
      LiteralPrefixChar(pre, x, current);
    }
  }

  /** The instructions of a literal text, as the final flush pushes them. */
  function LiteralParts(u: string): seq<TemplatePart>
  {
    if u == "" then [] else TextParts(u)
  }

  /** A template without tags compiles to the Text/Newline instructions of
      its literal reading: doubled braces become single ones, a lone `}`
      stays, and the empty template yields no instruction at all. */
  lemma CompileLiteral(s: string)
    requires Unescaped(s).Some?
    ensures Compile(s) == LiteralParts(Unescaped(s).value)
    ensures JoinText(Compile(s)) == Unescaped(s).value
  {
    FragmentsLiteralPrefix(s, [], "");
    assert s + [] == s;
    var u := Unescaped(s).value;
    assert "" + u == u;
    assert Fragments(s, "") == Flush(u);
    if u != "" {
      assert PartsOf([TextFragment(u)]) == TextParts(u) + PartsOf([]);
      TextPartsShape(u);
    }
  }

  /** A template without any brace is its own literal reading. */
  lemma {:induction false} UnescapedBraceFree(s: string)
    requires '{' !in s && '}' !in s
    ensures Unescaped(s) == Some(s)
    decreases |s|
  {
    if s != [] {
      UnescapedBraceFree(s[1..]);
      assert [s[0]] + s[1..] == s;
    }
  }

  /** A brace-free template yields Text/Newline instructions whose texts,
      joined with "\n", give back the input. */
  lemma CompileBraceFree(s: string)
    requires '{' !in s && '}' !in s
    ensures Compile(s) == LiteralParts(s)
    ensures JoinText(Compile(s)) == s
    ensures s == "" <==> Compile(s) == []
  {
    UnescapedBraceFree(s);
    CompileLiteral(s);
    if s != "" {
      TextPartsShape(s);
    }
  }

  lemma PartsOfFlush(u: string, fs: seq<Fragment>)
    ensures PartsOf(Flush(u) + fs) == LiteralParts(u) + PartsOf(fs)
  {
    PartsOfAppend(Flush(u), fs);
    if u != "" {
      assert PartsOf([TextFragment(u)]) == TextParts(u) + PartsOf([]);
    }
  }

  /** Scanning `pre + x` for a tag-free `pre`: the fragments of `x` with
      the literal reading of `pre` pending. */
  lemma CompileAfterLiteral(pre: string, x: string)
    requires Unescaped(pre).Some?
    requires x == [] || x[0] != '}'
    ensures Compile(pre + x) == PartsOf(Fragments(x, Unescaped(pre).value))
  {
    FragmentsLiteralPrefix(pre, x, "");
    assert "" + Unescaped(pre).value == Unescaped(pre).value;
  }

  /** The fragments of a tag followed by anything: the pending text, the
      tag, then the fragments of what follows. */
  lemma FragmentsOfTag(t: string, post: string, current: string)
    requires '}' !in t
    requires t == [] || t[0] != '{'
    ensures Fragments("{" + t + "}" + post, current)
            == Flush(current) + [TagFragment(t)] + Fragments(post, "")
  {
    var x := "{" + t + "}" + post;
    assert x[1..|t| + 1] == t && x[|t| + 2..] == post && x[0..] == x;
    ScanTag(x, 0, |t| + 1, current);
  }

  lemma PartsOfTagThen(u: string, t: string, fs: seq<Fragment>)
    ensures PartsOf(Flush(u) + [TagFragment(t)] + fs) == LiteralParts(u) + TagParts(t) + PartsOf(fs)
  {
    var tag := [TagFragment(t)];
    PartsOfAppend(Flush(u) + tag, fs);
    PartsOfFlush(u, tag);
    assert PartsOf(tag) == TagParts(t) + PartsOf([]);
    assert PartsOf(tag) == TagParts(t);
  }

  /** A tag `{t}` after a tag-free prefix and before any suffix: the
      prefix's literal instructions, then the tag's, then the suffix's, in
      source order. */
  lemma TagInContext(pre: string, t: string, post: string)
    requires Unescaped(pre).Some?
    requires '}' !in t
    requires t == [] || t[0] != '{'
    ensures Compile(pre + "{" + t + "}" + post)
            == LiteralParts(Unescaped(pre).value) + TagParts(t) + Compile(post)
  {
    var u := Unescaped(pre).value;
    var x := "{" + t + "}" + post;
    calc {
      Compile(pre + "{" + t + "}" + post);
      { AppendAssoc5(pre, "{", t, "}", post); }
      Compile(pre + x);
      { CompileAfterLiteral(pre, x); }
      PartsOf(Fragments(x, u));
      { FragmentsOfTag(t, post, u); }
      PartsOf(Flush(u) + [TagFragment(t)] + Fragments(post, ""));
      { PartsOfTagThen(u, t, Fragments(post, "")); }
      LiteralParts(u) + TagParts(t) + Compile(post);
    }
  }

  /** A template that is exactly one tag yields exactly that tag's
      instructions: the field for a known name, and otherwise the literal
      text `{t}` (this covers `{}`, `{a{b}`, `{len}`, `{bar}`, `{state_emoji}`). */
  lemma SingleTag(t: string)
    requires '}' !in t
    requires t == [] || t[0] != '{'
    ensures TagPart(t).Some? ==> Compile("{" + t + "}") == [TagPart(t).value]
    ensures TagPart(t).None? && '\n' !in t ==> Compile("{" + t + "}") == [Text("{" + t + "}")]
  {
    var x := "{" + t + "}";
    TagInContext("", t, "");
    assert "" + "{" + t + "}" + "" == x;
    CompileEmpty();
    assert Unescaped("") == Some("");
    assert Compile(x) == [] + TagParts(t) + [];
    if TagPart(t).None? && '\n' !in t {
      SplitNoSep(x, '\n');
    }
  }

  lemma FragmentsOfUnterminated(rest: string, current: string)
    requires '}' !in rest
    requires rest == [] || rest[0] != '{'
    ensures Fragments("{" + rest, current) == Flush(current) + [TextFragment("{" + rest)]
  {
    var x := "{" + rest;
    assert x[1..] == rest && x[0..] == x;
    ScanUnterminated(x, 0, current);
  }

  /** A `{` with no later `}` is kept as literal text, together with the
      rest of the input verbatim (no brace unescaping), in a Text of its
      own after the instructions of the text before it. */
  lemma Unterminated(pre: string, rest: string)
    requires Unescaped(pre).Some?
    requires '}' !in rest
    requires rest == [] || rest[0] != '{'
    ensures Compile(pre + "{" + rest)
            == LiteralParts(Unescaped(pre).value) + TextParts("{" + rest)
  {
    var u := Unescaped(pre).value;
    var x := "{" + rest;
    calc {
      Compile(pre + "{" + rest);
      { assert pre + "{" + rest == pre + x; }
      Compile(pre + x);
      { CompileAfterLiteral(pre, x); }
      PartsOf(Fragments(x, u));
      { FragmentsOfUnterminated(rest, u); }
      PartsOf(Flush(u) + [TextFragment(x)]);
      { PartsOfFlush(u, [TextFragment(x)]);
        assert PartsOf([TextFragment(x)]) == TextParts(x) + PartsOf([]); }
      LiteralParts(u) + TextParts(x);
    }
  }

  /** What the parser can emit: never `Bar` or `StateEmoji`, and never a
      Text holding a line break. */
  predicate Parsed(p: TemplatePart)
  {
    !p.Bar? && !p.StateEmoji? && (p.Text? ==> '\n' !in p.text)
  }

  lemma {:induction false} InterleaveParsed(pieces: seq<string>)
    requires forall i :: 0 <= i < |pieces| ==> '\n' !in pieces[i]
    ensures forall i :: 0 <= i < |Interleave(pieces)| ==> Parsed(Interleave(pieces)[i])
    decreases |pieces|
  {
    if |pieces| > 1 {
      InterleaveParsed(pieces[1..]);
    }
  }

  lemma {:induction false} PartsOfParsed(fragments: seq<Fragment>)
    ensures forall i :: 0 <= i < |PartsOf(fragments)| ==> Parsed(PartsOf(fragments)[i])
    decreases |fragments|
  {
    if fragments != [] {
      PartsOfParsed(fragments[1..]);
      match fragments[0]
      case TextFragment(text) =>
        InterleaveParsed(Split(text, '\n'));
      case TagFragment(tag) =>
        InterleaveParsed(Split("{" + tag + "}", '\n'));
    }
  }

  /** Every compiled instruction is one the parser can produce. */
  lemma CompileParsed(template: string)
    ensures forall i :: 0 <= i < |Compile(template)| ==> Parsed(Compile(template)[i])
  {
    PartsOfParsed(Fragments(template, ""));
  }
}
