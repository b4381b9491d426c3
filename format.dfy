/** Markdown formatting commands of the plain-text note editor: a toolbar button wraps the
    selection in emphasis markers or puts a heading or list marker in front of the line. */
module MarkdownFormat {
  import opened Common

  datatype FormatType = Bold | Italic | H1 | H2 | H3 | BulletList | OrderedList

  /** Bold and italic act on the selection; headings and lists act on the line. */
  predicate IsInline(t: FormatType) {
    t == Bold || t == Italic
  }

  /** The text area's value and selection after a command. */
  datatype Edit = Edit(text: string, selectionStart: nat, selectionEnd: nat)

  /** The marker written before the selection or at the start of the line. */
  function Prefix(t: FormatType): (r: string)
    ensures |r| > 0
    ensures !IsInline(t) ==> r[|r| - 1] == ' '
  {
    match t
    case Bold => "**"
    case Italic => "*"
    case H1 => "# "
    case H2 => "## "
    case H3 => "### "
    case BulletList => "- "
    case OrderedList => "1. "
  }

  /** The marker written after the selection: the prefix again for bold and italic,
      nothing for headings and lists. */
  function Suffix(t: FormatType): (r: string)
    ensures IsInline(t) ==> r == Prefix(t)
    ensures !IsInline(t) ==> r == ""
  {
    match t
    case Bold => "**"
    case Italic => "*"
    case _ => ""
  }

  /** Index `k` is the first index of a line of `text`. */
  predicate BeginsLine(text: string, k: int) {
    k == 0 || (0 < k <= |text| && text[k - 1] == '\n')
  }

  /** The start of the line holding index `i`: the greatest line beginning at or before `i`. */
  function LineStart(text: string, i: nat): (r: nat)
    requires i <= |text|
    ensures r <= i && BeginsLine(text, r)
    ensures forall k :: r < k <= i ==> !BeginsLine(text, k)
  {
    if i == 0 || text[i - 1] == '\n' then i else LineStart(text, i - 1)
  }

  /** `text[k] !== '\n'`, where reading at or past the end yields `undefined`. */
  predicate NotNewlineAt(text: string, k: nat) {
    k >= |text| || text[k] != '\n'
  }

  /** The condition under which a heading or list marker is preceded by a line break. */
  predicate InsertsNewline(text: string, lineStart: nat, start: nat)
    requires lineStart <= start <= |text|
  {
    && (lineStart != start || !IsBlank(text[lineStart..start]))
    && NotNewlineAt(text, lineStart)
    && lineStart != 0
  }

  /** What a heading or list command inserts at the start of the line. */
  function LinePrefix(text: string, lineStart: nat, start: nat, t: FormatType): string
    requires lineStart <= start <= |text|
  {
    (if InsertsNewline(text, lineStart, start) then "\n" else "") + Prefix(t)
  }

  /** Bold and italic: the markers wrap the selection, or an empty pair goes in at the caret. */
  function WrapEdit(text: string, start: nat, end: nat, t: FormatType): Edit
    requires start <= end <= |text|
  {
    var p, s := Prefix(t), Suffix(t);
    if start != end then
      Edit(text[..start] + p + text[start..end] + s + text[end..], start + |p|, end + |p|)
    else
      Edit(text[..start] + p + s + text[end..], start + |p|, start + |p|)
  }

  /** Headings and lists: the marker goes in at the start of the caret's line. */
  function LineEdit(text: string, start: nat, t: FormatType): Edit
    requires start <= |text|
  {
    var lineStart := LineStart(text, start);
    var inserted := LinePrefix(text, lineStart, start, t);
    Edit(text[..lineStart] + inserted + text[lineStart..], lineStart + |inserted|, lineStart + |inserted|)
  }

  /** The effect of a formatting command on the text and on the selection [start, end). */
  function Format(text: string, start: nat, end: nat, t: FormatType): Edit
    requires start <= end <= |text|
  {
    if IsInline(t) then WrapEdit(text, start, end, t) else LineEdit(text, start, t)
  }

  /** The marker table of the toolbar handler. */
  method Markers(t: FormatType) returns (prefix: string, suffix: string)
    ensures prefix == Prefix(t) && suffix == Suffix(t)
  {
    prefix, suffix := "", "";
    match t {
      case Bold => prefix, suffix := "**", "**";
      case Italic => prefix, suffix := "*", "*";
      case H1 => prefix := "# ";
      case H2 => prefix := "## ";
      case H3 => prefix := "### ";
      case BulletList => prefix := "- ";
      case OrderedList => prefix := "1. ";
    }
  }

  /** The backward scan of the toolbar handler: steps left from the caret until the
      previous character is a line break or the text begins. */
  method FindLineStart(currentText: string, start: nat) returns (lineStart: nat)
    requires start <= |currentText|
    ensures lineStart <= start && BeginsLine(currentText, lineStart)
    ensures forall k :: lineStart <= k < start ==> currentText[k] != '\n'
  {
    lineStart := start;
    while lineStart > 0 && currentText[lineStart - 1] != '\n'
      invariant lineStart <= start
      invariant forall k :: lineStart <= k < start ==> currentText[k] != '\n'
    {
      lineStart := lineStart - 1;
    }
  }

  /** The scan stops exactly at the start of the caret's line. */
  lemma {:induction false} LineStartUnique(text: string, i: nat, r: nat)
    requires r <= i <= |text| && BeginsLine(text, r)
    requires forall k :: r <= k < i ==> text[k] != '\n'
    ensures r == LineStart(text, i)
    decreases i
  {
    if i != r {
      assert text[i - 1] != '\n';
      LineStartUnique(text, i - 1, r);
    }
  }

  /** The inline branches of the toolbar handler: wrap the selection, or put the marker pair
      at the caret. */
  method WrapSelection(currentText: string, start: nat, end: nat, t: FormatType, prefix: string, suffix: string)
    returns (e: Edit)
    requires start <= end <= |currentText| && prefix == Prefix(t) && suffix == Suffix(t)
    ensures e == WrapEdit(currentText, start, end, t)
  {
    if start != end {
      e := Edit(currentText[..start] + prefix + currentText[start..end] + suffix + currentText[end..],
                start + |prefix|, end + |prefix|);
    } else {
      var newStart := start + |prefix|;
      e := Edit(currentText[..start] + prefix + suffix + currentText[end..], newStart, newStart);
    }
  }

  /** The heading and list branch of the toolbar handler: scan back to the line start and
      insert the marker there, after a line break when the caret is inside a line. */
  method MarkLine(currentText: string, start: nat, t: FormatType, prefix: string) returns (e: Edit)
    requires start <= |currentText| && prefix == Prefix(t)
    ensures e == LineEdit(currentText, start, t)
  {
    var lineStart := FindLineStart(currentText, start);
    LineStartUnique(currentText, start, lineStart);
    var insertNewLine := (lineStart != start || !IsBlank(currentText[lineStart..start]))
                         && (lineStart >= |currentText| || currentText[lineStart] != '\n')
                         && lineStart != 0;
    var inserted := if insertNewLine then "\n" + prefix else prefix;
    assert inserted == LinePrefix(currentText, lineStart, start, t);
    var newStart := lineStart + |inserted|;
    e := Edit(currentText[..lineStart] + inserted + currentText[lineStart..], newStart, newStart);
  }

  /** The toolbar handler: picks the markers, then wraps, inserts a marker pair, or scans
      back to the start of the line and inserts the line marker there. */
  method HandleFormat(currentText: string, start: nat, end: nat, t: FormatType) returns (e: Edit)
    requires start <= end <= |currentText|
    ensures e == Format(currentText, start, end, t)
  {
    var prefix, suffix := Markers(t);
    if IsInline(t) {
      e := WrapSelection(currentText, start, end, t, prefix, suffix);
    } else {
      e := MarkLine(currentText, start, t, prefix);
    }
  }

  /** The five pieces of `a + p + b + q + c` are found back at their offsets. */
  lemma Slices5(a: string, p: string, b: string, q: string, c: string)
    ensures var x, i, j, k := a + p + b + q + c, |a| + |p|, |a| + |p| + |b|, |a| + |p| + |b| + |q|;
      && |x| == k + |c|
      && x[..|a|] == a && x[|a|..i] == p && x[i..j] == b && x[j..k] == q && x[k..] == c
  {
    var x, i, j, k := a + p + b + q + c, |a| + |p|, |a| + |p| + |b|, |a| + |p| + |b| + |q|;
    assert x == (a + p + b) + (q + c);
    assert x[..|a|] == a;
    assert x[|a|..i] == p;
    assert x[i..j] == b;
    assert x[j..k] == q;
  }

  /** Bold or italic over a non-empty selection: the markers surround the selection, the new
      selection covers exactly the text that was selected, and the rest is unchanged. */
  lemma WrapSurroundsSelection(text: string, start: nat, end: nat, t: FormatType)
    requires start < end <= |text| && IsInline(t)
    ensures var e := Format(text, start, end, t);
      && e.selectionStart == start + |Prefix(t)| && e.selectionEnd == end + |Prefix(t)|
      && |e.text| == |text| + 2 * |Prefix(t)|
      && e.text[..start] == text[..start]
      && e.text[start..e.selectionStart] == Prefix(t)
      && e.text[e.selectionStart..e.selectionEnd] == text[start..end]
      && e.text[e.selectionEnd..e.selectionEnd + |Suffix(t)|] == Suffix(t)
      && e.text[e.selectionEnd + |Suffix(t)|..] == text[end..]
  {
    var p := Prefix(t);
    assert Format(text, start, end, t).text == text[..start] + p + text[start..end] + p + text[end..];
    Slices5(text[..start], p, text[start..end], p, text[end..]);
  }

  /** Bold or italic with a caret: an empty marker pair is inserted at the caret and the
      caret lands between the two markers. */
  lemma CaretGetsMarkerPair(text: string, start: nat, t: FormatType)
    requires start <= |text| && IsInline(t)
    ensures var e := Format(text, start, start, t);
      && e.selectionStart == e.selectionEnd == start + |Prefix(t)|
      && e.text[..start] == text[..start]
      && e.text[start..e.selectionStart] == Prefix(t)
      && e.text[e.selectionStart..e.selectionStart + |Suffix(t)|] == Suffix(t)
      && e.text[e.selectionStart + |Suffix(t)|..] == text[start..]
  {
    var p := Prefix(t);
    assert Format(text, start, start, t).text == text[..start] + p + [] + p + text[start..];
    Slices5(text[..start], p, [], p, text[start..]);
  }

  /** Inserting `ins` at index `k` keeps the text before and after `k` and puts `ins`
      between them. */
  lemma InsertAt(text: string, k: nat, ins: string)
    requires k <= |text|
    ensures var x := text[..k] + ins + text[k..];
      && |x| == |text| + |ins|
      && x[..k] == text[..k] && x[k..k + |ins|] == ins && x[k + |ins|..] == text[k..]
      && x[..k] + x[k + |ins|..] == text
  {
    var x := text[..k] + ins + text[k..];
    assert x[..k] == text[..k];
    assert x[k..k + |ins|] == ins;
    assert x[k + |ins|..] == text[k..];
    assert text[..k] + text[k..] == text;
  }

  /** Headings and lists: the text before the line start and the text from the line start on
      are both kept; only the marker (after an optional line break) is inserted at the line
      start, and the caret lands right after the marker, whatever the selection end was. */
  lemma LineMarkerAtLineStart(text: string, start: nat, end: nat, t: FormatType)
    requires start <= end <= |text| && !IsInline(t)
    ensures var lineStart := LineStart(text, start); var inserted := LinePrefix(text, lineStart, start, t);
      var e := Format(text, start, end, t); e.selectionStart == e.selectionEnd == lineStart + |inserted|
    ensures var lineStart := LineStart(text, start); var inserted := LinePrefix(text, lineStart, start, t);
      var e := Format(text, start, end, t); e.text[..lineStart] == text[..lineStart]
    ensures var lineStart := LineStart(text, start); var inserted := LinePrefix(text, lineStart, start, t);
      var e := Format(text, start, end, t); e.text[lineStart..e.selectionStart] == inserted
    ensures var lineStart := LineStart(text, start); var inserted := LinePrefix(text, lineStart, start, t);
      var e := Format(text, start, end, t); e.text[e.selectionStart..] == text[lineStart..]
    ensures var lineStart := LineStart(text, start); var inserted := LinePrefix(text, lineStart, start, t);
      var e := Format(text, start, end, t); e.text[..lineStart] + e.text[e.selectionStart..] == text
  {
    assert Format(text, start, end, t) == LineEdit(text, start, t);
    LineEditShape(text, start, t);
  }

  /** The shape of a line edit. */
  lemma LineEditShape(text: string, start: nat, t: FormatType)
    requires start <= |text|
    ensures var lineStart := LineStart(text, start); var inserted := LinePrefix(text, lineStart, start, t);
      var e := LineEdit(text, start, t);
      && e.selectionStart == e.selectionEnd == lineStart + |inserted|
      && e.text[..lineStart] == text[..lineStart]
      && e.text[lineStart..e.selectionStart] == inserted
      && e.text[e.selectionStart..] == text[lineStart..]
      && e.text[..lineStart] + e.text[e.selectionStart..] == text
  {
    var lineStart := LineStart(text, start);
    InsertAt(text, lineStart, LinePrefix(text, lineStart, start, t));
  }

  /** The line break goes in exactly when the caret is inside a line that is not the first:
      the blankness test only ever sees the empty slice, and the character at the line start
      of such a line is never a line break. */
  lemma NewlineExactlyMidLine(text: string, start: nat)
    requires start <= |text|
    ensures var lineStart := LineStart(text, start);
      InsertsNewline(text, lineStart, start) <==> lineStart != 0 && lineStart != start
  {
    var lineStart := LineStart(text, start);
    if lineStart != start {
      assert !BeginsLine(text, lineStart + 1);
    } else {
      assert text[lineStart..start] == [];
    }
  }
}
