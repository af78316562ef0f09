/** The markdown helpers of the editor: HTML escaping, the list and list-item
    renderers registered with the markdown parser, the detection of inputs
    that could overflow the parser, and the plain-text fallbacks of
    `markdownToHtml`. */
module MarkedUtils {
  import opened Wrappers
  import opened Strings

  /** The five characters `escapeHtml` replaces. */
  predicate IsSpecial(c: char) {
    c == '&' || c == '<' || c == '>' || c == '"' || c == '\''
  }

  /** The replacement of one character. */
  function EscapeChar(c: char): (r: string)
    ensures |r| >= 1
    ensures !IsSpecial(c) ==> r == [c]
  {
    match c
    case '&' => "&amp;"
    case '<' => "&lt;"
    case '>' => "&gt;"
    case '"' => "&quot;"
    case '\'' => "&#039;"
    case _ => [c]
  }

  /** The characters `escapeHtml` never emits. */
  predicate IsMarkup(c: char) {
    c == '<' || c == '>' || c == '"' || c == '\''
  }

  /** `escapeHtml`: every `&`, `<`, `>`, `"` and `'` is replaced by its entity;
      the result carries no markup character and is the input itself when
      there is nothing to replace. */
  function EscapeHtml(s: string): (r: string)
    ensures |r| >= |s|
    ensures forall i :: 0 <= i < |r| ==> !IsMarkup(r[i])
    ensures (forall i :: 0 <= i < |s| ==> !IsSpecial(s[i])) ==> r == s
  {
    if s == [] then []
    else
      var head := EscapeChar(s[0]);
      var tail := EscapeHtml(s[1..]);
      assert forall i :: 0 <= i < |head| ==> !IsMarkup(head[i]);
      assert forall i :: |head| <= i < |head + tail| ==> (head + tail)[i] == tail[i - |head|];
      head + tail
  }

  /** Escaping distributes over concatenation. */
  lemma {:induction false} EscapeHtmlAppend(a: string, b: string)
    ensures EscapeHtml(a + b) == EscapeHtml(a) + EscapeHtml(b)
  {
    if a == [] {
      assert a + b == b;
    } else {
      assert (a + b)[0] == a[0];
      assert (a + b)[1..] == a[1..] + b;
      EscapeHtmlAppend(a[1..], b);
    }
  }

  /** A reference decoder of the five entities. */
  function UnescapeHtml(t: string): (r: string)
    decreases |t|
  {
    if t == [] then []
    else if t[0] != '&' then [t[0]] + UnescapeHtml(t[1..])
    else if StartsWith(t, "&amp;") then "&" + UnescapeHtml(t[5..])
    else if StartsWith(t, "&lt;") then "<" + UnescapeHtml(t[4..])
    else if StartsWith(t, "&gt;") then ">" + UnescapeHtml(t[4..])
    else if StartsWith(t, "&quot;") then "\"" + UnescapeHtml(t[6..])
    else if StartsWith(t, "&#039;") then "'" + UnescapeHtml(t[6..])
    else [t[0]] + UnescapeHtml(t[1..])
  }

  /** Decoding reads one escaped character back off the front. */
  lemma {:induction false} UnescapeCons(c: char, rest: string)
    ensures UnescapeHtml(EscapeChar(c) + rest) == [c] + UnescapeHtml(rest)
  {
    var head := EscapeChar(c);
    var t := head + rest;
    if IsSpecial(c) {
      UnescapeEntity(c, rest);
    } else {
      assert t[0] == c && t[1..] == rest;
    }
  }

  lemma {:induction false} UnescapeEntity(c: char, rest: string)
    requires IsSpecial(c)
    ensures UnescapeHtml(EscapeChar(c) + rest) == [c] + UnescapeHtml(rest)
  {
    var head := EscapeChar(c);
    var t := head + rest;
    assert t[..|head|] == head && t[|head|..] == rest;
    assert t[0] == '&';
    if c == '&' {
      assert StartsWith(t, "&amp;");
    } else {
      assert !StartsWith(t, "&amp;") by { assert t[1] != 'a'; }
      if c == '<' {
        assert StartsWith(t, "&lt;");
      } else {
        assert !StartsWith(t, "&lt;") by { assert t[1] != 'l'; }
        if c == '>' {
          assert StartsWith(t, "&gt;");
        } else {
          assert !StartsWith(t, "&gt;") by { assert t[1] != 'g'; }
          if c == '"' {
            assert StartsWith(t, "&quot;");
          } else {
            assert !StartsWith(t, "&quot;") by { assert t[1] != 'q'; }
            assert StartsWith(t, "&#039;");
          }
        }
      }
    }
  }

  /** Escaping loses nothing: decoding the escaped text gives the text back. */
  lemma {:induction false} UnescapeEscape(s: string)
    ensures UnescapeHtml(EscapeHtml(s)) == s
  {
    if s != [] {
      UnescapeEscape(s[1..]);
      UnescapeCons(s[0], EscapeHtml(s[1..]));
      assert s == [s[0]] + s[1..];
    }
  }

  /** The plain-text fallback. */
  function Pre(text: string): string {
    "<pre>" + EscapeHtml(text) + "</pre>"
  }

  /** A fallback page is one inert block: between the tags there is no
      markup character, so the block cannot be closed early, and the text
      can be read back from it. */
  lemma {:induction false} PreIsInert(text: string)
    ensures var p := Pre(text);
      StartsWith(p, "<pre>") && EndsWith(p, "</pre>")
      && (forall i :: 5 <= i < |p| - 6 ==> !IsMarkup(p[i]))
      && UnescapeHtml(p[5..|p| - 6]) == text
  {
    var p := Pre(text);
    var e := EscapeHtml(text);
    assert p[5..|p| - 6] == e;
    assert forall i :: 5 <= i < |p| - 6 ==> p[i] == e[i - 5];
    UnescapeEscape(text);
  }

  /** The attribute the ordered tag carries: none for a list starting at 1. */
  function StartAttr(start: int): string {
    if start != 1 then " start=\"" + IntToString(start) + "\"" else ""
  }

  /** The attribute the unordered tag carries: a task-list marker when the
      body holds a checkbox. */
  function ListDataType(body: string): string {
    if Contains(body, "<input") then " data-type=\"taskList\"" else ""
  }

  /** The `list` renderer. The ordered tag is written as `<ol ${startAttr}>`,
      so it always has a space after `ol`, and a second one before `start`. */
  function ListHtml(body: string, isOrdered: bool, start: int): string {
    if isOrdered then "<ol " + StartAttr(start) + ">\n" + body + "</ol>\n"
    else "<ul" + ListDataType(body) + ">\n" + body + "</ul>\n"
  }

  lemma {:induction false} StartAttrInjective(s1: int, s2: int)
    requires StartAttr(s1) == StartAttr(s2)
    ensures s1 == s2
  {
    if s1 != 1 && s2 != 1 {
      var a := StartAttr(s1);
      assert a[8..|a| - 1] == IntToString(s1);
      assert a[8..|a| - 1] == IntToString(s2);
      IntToStringInjective(s1, s2);
    }
  }

  /** The ordered tag determines the start number: two renderings of the same
      body agree only when their starts do. The attribute is there exactly
      when the list does not start at 1. */
  lemma {:induction false} OrderedStartRecoverable(body: string, s1: int, s2: int)
    requires ListHtml(body, true, s1) == ListHtml(body, true, s2)
    ensures s1 == s2
  {
    OrderedTagCancels(StartAttr(s1), StartAttr(s2), body);
    StartAttrInjective(s1, s2);
  }

  /** Two ordered tags around the same body agree only on equal attributes. */
  lemma {:induction false} OrderedTagCancels(a: string, b: string, body: string)
    requires "<ol " + a + ">\n" + body + "</ol>\n" == "<ol " + b + ">\n" + body + "</ol>\n"
    ensures a == b
  {
    var r := "<ol " + a + ">\n" + body + "</ol>\n";
    assert |a| == |b|;
    assert r[4..4 + |a|] == a;
    assert ("<ol " + b + ">\n" + body + "</ol>\n")[4..4 + |b|] == b;
  }

  /** An unordered list is marked as a task list exactly when its body holds
      a checkbox. */
  lemma {:induction false} TaskListIffCheckbox(body: string)
    ensures StartsWith(ListHtml(body, false, 1), "<ul data-type=\"taskList\">") <==> Contains(body, "<input")
  {
    var r := ListHtml(body, false, 1);
    if Contains(body, "<input") {
      UnorderedTagStarts(" data-type=\"taskList\"", body);
      assert "<ul" + " data-type=\"taskList\"" + ">" == "<ul data-type=\"taskList\">";
    } else {
      assert r == "<ul" + "" + ">\n" + body + "</ul>\n";
      assert r[3] == '>';
    }
  }

  /** The unordered tag opens the rendering, whatever its attribute. */
  lemma {:induction false} UnorderedTagStarts(a: string, body: string)
    ensures StartsWith("<ul" + a + ">\n" + body + "</ul>\n", "<ul" + a + ">")
  {
    var r := "<ul" + a + ">\n" + body + "</ul>\n";
    var t := "<ul" + a + ">";
    forall i | 0 <= i < |t| ensures r[i] == t[i] {
      if i < 3 + |a| {
        assert r[i] == ("<ul" + a)[i];
      }
    }
    assert r[..|t|] == t;
  }

  /** A list that starts at 1 gets no attribute, but the tag keeps the space
      written before it: `<ol >`. */
  lemma {:induction false} OrderedAtOneKeepsSpace(body: string)
    ensures ListHtml(body, true, 1) == "<ol >\n" + body + "</ol>\n"
  {
    assert "<ol " + "" + ">\n" == "<ol >\n";
  }

  /** `data-checked="true"` or `data-checked="false"`. */
  function CheckedAttr(isChecked: bool): string {
    if isChecked then "data-checked=\"true\"" else "data-checked=\"false\""
  }

  /** The `listitem` renderer. */
  function ListItemHtml(text: string, isTask: bool, isChecked: bool): string {
    if !isTask then "<li>" + text + "</li>\n"
    else "<li data-type=\"taskItem\" " + CheckedAttr(isChecked) + ">" + text + "</li>\n"
  }

  /** Every item starts with the opening tag and ends with its text and the
      closing tag. */
  lemma {:induction false} ListItemShape(text: string, isTask: bool, isChecked: bool)
    ensures var r := ListItemHtml(text, isTask, isChecked);
      StartsWith(r, "<li") && EndsWith(r, text + "</li>\n")
  {
    var r := ListItemHtml(text, isTask, isChecked);
    assert r[|r| - |text + "</li>\n"|..] == text + "</li>\n";
  }

  /** An item is marked as a task item exactly when it is one. */
  lemma {:induction false} TaskItemIffMarked(text: string, isTask: bool, isChecked: bool)
    ensures StartsWith(ListItemHtml(text, isTask, isChecked), "<li data-type=\"taskItem\"") <==> isTask
  {
    var r := ListItemHtml(text, isTask, isChecked);
    if !isTask {
      assert r[3] == '>';
    }
  }

  /** A task item's tag records whether it is checked: items that differ only
      in that flag render differently. */
  lemma {:induction false} TaskItemRecordsChecked(text: string, c1: bool, c2: bool)
    requires ListItemHtml(text, true, c1) == ListItemHtml(text, true, c2)
    ensures c1 == c2
  {
    assert |CheckedAttr(true)| != |CheckedAttr(false)|;
  }

  /** `2 * 1024 * 1024` */
  const MaxMarkdownSize: nat := 2 * 1024 * 1024

  /** Lines beyond this many characters trip the overflow guard. */
  const MaxLineLength: nat := 50000

  /** `/^\s{40,}/m`: some line (the text's start, or a position after a line
      terminator) begins with at least forty white-space characters, which
      may themselves be line terminators. */
  predicate DeepNesting(md: string) {
    exists i | 0 <= i <= |md| - 40 :: NestedAt(md, i)
  }

  /** A line starts at `i` and its first forty characters are white space. */
  predicate NestedAt(md: string, i: int) {
    0 <= i <= |md| - 40 && (i == 0 || IsLineTerminator(md[i - 1])) && AllSpace(md[i..i + 40])
  }

  predicate AllSpace(s: string) {
    forall k :: 0 <= k < |s| ==> IsSpace(s[k])
  }

  /** `hasProblematicPatterns`, with the verdict of the three repeated-character
      patterns passed in. */
  function HasProblematicPatterns(md: string, specialChars: bool): bool {
    DeepNesting(md) || (exists k | 0 <= k < |Lines(md)| :: |Lines(md)[k]| > MaxLineLength) || specialChars
  }

  /** A line longer than 50000 characters makes the text problematic,
      whatever the other checks say. */
  lemma {:induction false} LongLineIsProblematic(md: string, k: nat, specialChars: bool)
    requires k < |Lines(md)| && |Lines(md)[k]| > MaxLineLength
    ensures HasProblematicPatterns(md, specialChars)
  {
  }

  /** Text too short for either guard is only flagged by the character patterns. */
  lemma {:induction false} ShortTextFlaggedOnlyBySpecialChars(md: string, specialChars: bool)
    requires |md| < 40
    ensures HasProblematicPatterns(md, specialChars) == specialChars
  {
  }

  /** Forty blank lines (forty-one line breaks in a row) count as deep
      nesting, wherever they occur. */
  lemma {:induction false} BlankLinesCountAsNesting(before: string, after: string)
    ensures HasProblematicPatterns(before + seq(41, _ => '\n') + after, false)
  {
    var md := before + seq(41, _ => '\n') + after;
    var i := |before| + 1;
    assert md[i - 1] == '\n';
    var run := md[i..i + 40];
    forall k | 0 <= k < 40 ensures IsSpace(run[k]) {
      assert run[k] == md[i + k] == '\n';
    }
    assert NestedAt(md, i);
  }

  /** `markdownToHtml`: `withoutFrontMatter` is the input with a leading YAML
      front-matter block removed, `specialChars` the verdict of the
      repeated-character patterns on the trimmed text, and `parsed` what the
      markdown parser returns or throws for it. */
  function MarkdownToHtml(input: string, withoutFrontMatter: string, specialChars: bool, parsed: Result<string, string>)
    : (r: string)
    ensures |input| > MaxMarkdownSize ==> r == Pre(input[..MaxMarkdownSize])
    ensures |input| <= MaxMarkdownSize && HasProblematicPatterns(TrimStart(withoutFrontMatter), specialChars) ==>
      r == Pre(TrimStart(withoutFrontMatter))
    ensures |input| <= MaxMarkdownSize && !HasProblematicPatterns(TrimStart(withoutFrontMatter), specialChars) ==>
      r == (if parsed.Ok? then parsed.value else Pre(TrimStart(withoutFrontMatter)))
  {
    if |input| > MaxMarkdownSize then Pre(input[..MaxMarkdownSize])
    else
      var md := TrimStart(withoutFrontMatter);
      if HasProblematicPatterns(md, specialChars) then Pre(md)
      else match parsed
        case Ok(html) => html
        case Err(_) => Pre(md)
  }

  /** Every fallback of `markdownToHtml` is an inert `<pre>` block of the text
      it gave up on: the first 2097152 characters of an oversized input, or
      the front-matter-stripped text when it is problematic or the parser
      throws; only a successful parse of acceptable text returns the parser's
      output. */
  lemma {:induction false} MarkdownFallbacksAreInert(input: string, withoutFrontMatter: string, specialChars: bool,
                                                   parsed: Result<string, string>)
    ensures var r := MarkdownToHtml(input, withoutFrontMatter, specialChars, parsed);
      var md := TrimStart(withoutFrontMatter);
      var usesParser := |input| <= MaxMarkdownSize && !HasProblematicPatterns(md, specialChars) && parsed.Ok?;
      (usesParser ==> r == parsed.value)
      && (!usesParser ==>
            StartsWith(r, "<pre>") && EndsWith(r, "</pre>")
            && UnescapeHtml(r[5..|r| - 6]) == (if |input| > MaxMarkdownSize then input[..MaxMarkdownSize] else md))
  {
    var md := TrimStart(withoutFrontMatter);
    var r := MarkdownToHtml(input, withoutFrontMatter, specialChars, parsed);
    var usesParser := |input| <= MaxMarkdownSize && !HasProblematicPatterns(md, specialChars) && parsed.Ok?;
    if !usesParser {
      var text := if |input| > MaxMarkdownSize then input[..MaxMarkdownSize] else md;
      assert r == Pre(text);
      PreIsInert(text);
    }
  }
}
