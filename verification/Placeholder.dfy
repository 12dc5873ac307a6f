/** The generator that keeps the CRDs between two markers of a template. */
module Placeholder {
  import opened Options
  import opened Text
  import opened Selections

  const START := "# PLACEHOLDER_CRDS_START"
  const END := "# PLACEHOLDER_CRDS_END"

  // ------------------------------------------------------------------ searching for text

  predicate OccursAt(s: string, p: string, i: nat) {
    i + |p| <= |s| && s[i..i + |p|] == p
  }

  function IndexFrom(s: string, p: string, i: nat): (k: Option<nat>)
    requires i <= |s|
    ensures match k
            case None => forall j | i <= j <= |s| :: !OccursAt(s, p, j)
            case Some(k) => i <= k <= |s| && OccursAt(s, p, k) && forall j | i <= j < k :: !OccursAt(s, p, j)
    decreases |s| - i
  {
    if OccursAt(s, p, i) then Some(i) else if i == |s| then None else IndexFrom(s, p, i + 1)
  }

  /** strings.Index: the first place where `p` occurs in `s`. */
  function Index(s: string, p: string): (k: Option<nat>)
    ensures match k
            case None => forall j | 0 <= j <= |s| :: !OccursAt(s, p, j)
            case Some(k) => k <= |s| && OccursAt(s, p, k) && forall j | 0 <= j < k :: !OccursAt(s, p, j)
  {
    IndexFrom(s, p, 0)
  }

  // ------------------------------------------------------------------ lines

  function SplitLines(s: string): (lines: seq<string>)
    ensures lines != []
    ensures forall i | 0 <= i < |lines| :: '\n' !in lines[i]
  {
    match FirstIndex(s, '\n')
    case None => [s]
    case Some(k) => [s[..k]] + SplitLines(s[k + 1..])
  }

  function JoinLines(lines: seq<string>): string
    requires lines != []
  {
    if |lines| == 1 then lines[0] else lines[0] + ['\n'] + JoinLines(lines[1..])
  }

  lemma {:induction false} JoinUndoesSplit(s: string)
    ensures JoinLines(SplitLines(s)) == s
  {
    var k := FirstIndex(s, '\n');
    if k.Some? {
      JoinUndoesSplit(s[k.value + 1..]);
      assert SplitLines(s)[1..] == SplitLines(s[k.value + 1..]);
      assert s == s[..k.value] + ['\n'] + s[k.value + 1..];
    }
  }

  lemma {:induction false} SplitFirstLine(line: string, rest: string)
    requires '\n' !in line
    ensures SplitLines(line + ['\n'] + rest) == [line] + SplitLines(rest)
  {
    var s := line + ['\n'] + rest;
    FirstIndexOf(line, '\n', rest);
    hide FirstIndex;
    assert s[..|line|] == line && s[|line| + 1..] == rest;
  }

  lemma {:induction false} SplitUndoesJoin(lines: seq<string>)
    requires lines != [] && forall i | 0 <= i < |lines| :: '\n' !in lines[i]
    ensures SplitLines(JoinLines(lines)) == lines
  {
    hide SplitLines;
    if |lines| == 1 {
      SplitSingleLine(lines[0]);
    } else {
      SplitUndoesJoin(lines[1..]);
      SplitFirstLine(lines[0], JoinLines(lines[1..]));
    }
  }

  lemma {:induction false} SplitSingleLine(line: string)
    requires '\n' !in line
    ensures SplitLines(line) == [line]
  {
  }

  function Indented(line: string, spaces: nat): string {
    if line != "" then seq(spaces, _ => ' ') + line else line
  }

  function IndentedLines(lines: seq<string>, spaces: nat): seq<string> {
    seq(|lines|, i requires 0 <= i < |lines| => Indented(lines[i], spaces))
  }

  function Indent(content: string, spaces: nat): string {
    JoinLines(IndentedLines(SplitLines(content), spaces))
  }

  method IndentContent(content: string, spaces: nat) returns (indented: string)
    ensures indented == Indent(content, spaces)
  {
    hide SplitLines, JoinLines;
    var indent := seq(spaces, _ => ' ');
    ghost var before := SplitLines(content);
    var lines := SplitLines(content);
    for i := 0 to |lines|
      invariant |lines| == |before|
      invariant forall j | 0 <= j < i :: lines[j] == Indented(before[j], spaces)
      invariant forall j | i <= j < |lines| :: lines[j] == before[j]
    {
      if lines[i] != "" {
        lines := lines[i := indent + lines[i]];
      }
    }
    assert lines == IndentedLines(before, spaces);
    indented := JoinLines(lines);
  }

  /** The line with so many blanks in front; an empty line has none. */
  predicate IsMoved(moved: string, line: string, spaces: nat) {
    if line == "" then moved == ""
    else |moved| == spaces + |line| && moved[spaces..] == line && forall j | 0 <= j < spaces :: moved[j] == ' '
  }

  /** Indenting moves every line that is not empty and changes nothing else: the lines can be read back. */
  lemma {:induction false} IndentKeepsLines(content: string, spaces: nat)
    ensures SplitLines(Indent(content, spaces)) == IndentedLines(SplitLines(content), spaces)
    ensures var before, after := SplitLines(content), SplitLines(Indent(content, spaces));
            |after| == |before| && forall i | 0 <= i < |before| :: IsMoved(after[i], before[i], spaces)
  {
    hide SplitLines, JoinLines;
    SplitUndoesJoin(IndentedLines(SplitLines(content), spaces));
  }

  lemma {:induction false} IndentByNothing(content: string)
    ensures Indent(content, 0) == content
  {
    hide SplitLines, JoinLines;
    var lines := SplitLines(content);
    forall i | 0 <= i < |lines| ensures Indented(lines[i], 0) == lines[i] {
      assert seq(0, _ => ' ') + lines[i] == lines[i];
    }
    assert IndentedLines(lines, 0) == lines;
    JoinUndoesSplit(content);
  }

  // ------------------------------------------------------------------ replacing

  /** Both markers are there and the line of the start marker ends. */
  predicate Replaceable(template: string) {
    && Index(template, START).Some? && Index(template, END).Some?
    && '\n' in template[Index(template, START).value..]
  }

  /** Just past the end of the line with the start marker. */
  function AfterStartLine(template: string): (a: nat)
    requires Replaceable(template)
    ensures 0 < a <= |template|
  {
    var start := Index(template, START).value;
    start + FirstIndex(template[start..], '\n').value + 1
  }

  function EndAt(template: string): (e: nat)
    requires Replaceable(template)
    ensures e <= |template|
  {
    Index(template, END).value
  }

  function ReplacePlaceholder(template: string, content: string): string {
    if !Replaceable(template) then template
    else template[..AfterStartLine(template)] + Indent(content, 0) + "\n" + template[EndAt(template)..]
  }

  /** Text up to the end of the start line, and from the end marker on, is kept; the content goes between. */
  lemma {:induction false} ReplacedText(template: string, content: string)
    requires Replaceable(template)
    ensures ReplacePlaceholder(template, content)
            == template[..AfterStartLine(template)] + content + "\n" + template[EndAt(template)..]
  {
    IndentByNothing(content);
  }

  /** Where text starts with a marker's line, the marker occurs and the line ends. */
  lemma {:induction false} LineOf(before: string, marker: string, line: string, rest: string)
    requires '\n' !in marker && '\n' !in line
    ensures var s := before + marker + line + ['\n'] + rest;
            && |before| <= |s| && OccursAt(s, marker, |before|) && '\n' in s[|before|..]
            && FirstIndex(s[|before|..], '\n') == Some(|marker| + |line|)
            && s[..|before| + |marker| + |line| + 1] == before + marker + line + ['\n']
  {
    var s, head := before + marker + line + ['\n'] + rest, marker + line;
    FirstIndexOf(head, '\n', rest);
    assert s[|before|..] == head + ['\n'] + rest;
    hide FirstIndex;
    assert s[|before|..|before| + |marker|] == marker;
    assert s[|before|..][|head|] == '\n';
  }

  /**
   Spelled out: the content is put between the line of the first start marker and the first
   end marker, and everything else is kept.
   */
  lemma {:induction false} ReplacedBetween(
    template: string, before: string, line: string, gap: string, after: string, content: string)
    requires template ==
               before + "# PLACEHOLDER_CRDS_START" + line + ['\n'] + (gap + ("# PLACEHOLDER_CRDS_END" + after))
    requires '\n' !in line && forall j | 0 <= j < |before| :: !OccursAt(template, START, j)
    requires forall j | 0 <= j < |template| - |after| - |END| :: !OccursAt(template, END, j)
    ensures ReplacePlaceholder(template, content) ==
              before + "# PLACEHOLDER_CRDS_START" + line + ['\n'] + content + "\n" + ("# PLACEHOLDER_CRDS_END" + after)
  {
    MarkersFitOnALine();
    var start, end := START, END;
    assert start == "# PLACEHOLDER_CRDS_START" && end == "# PLACEHOLDER_CRDS_END";
    var head := before + start + line + ['\n'];
    LineOf(before, start, line, gap + (end + after));
    assert template == (head + gap) + (end + after);
    OccursAfter(head + gap, end, after);
    ReplacedAt(template, |before|, |head|, |head + gap|, content);
    assert template[|head + gap|..] == end + after;
  }

  lemma {:induction false} ReplacedAt(template: string, start: nat, a: nat, e: nat, content: string)
    requires OccursAt(template, START, start) && OccursAt(template, END, e) && e <= |template|
    requires forall j | 0 <= j < start :: !OccursAt(template, START, j)
    requires forall j | 0 <= j < e :: !OccursAt(template, END, j)
    requires '\n' in template[start..] && FirstIndex(template[start..], '\n') == Some(a - 1 - start) && a > start
    ensures a <= |template|
    ensures ReplacePlaceholder(template, content) == template[..a] + content + "\n" + template[e..]
  {
    hide FirstIndex, Index, OccursAt;
    assert Index(template, START) == Some(start) && Index(template, END) == Some(e);
    assert AfterStartLine(template) == a && EndAt(template) == e;
    hide ReplacePlaceholder;
    ReplacedText(template, content);
  }

  lemma {:induction false} MarkersFitOnALine()
    ensures '\n' !in START && '\n' !in END && |START| > 0 && |END| > 0
  {
  }

  /** Text without a line break occurs within a line. */
  lemma {:induction false} OccursWithinLine(s: string, p: string, i: nat)
    requires '\n' !in p && OccursAt(s, p, i)
    ensures forall n | i <= n < i + |p| :: s[n] != '\n'
  {
    forall n | i <= n < i + |p| ensures s[n] != '\n' {
      assert s[n] == s[i..i + |p|][n - i];
    }
  }

  /** Where the start line ends, the start marker has ended too. */
  lemma {:induction false} StartLine(template: string)
    requires Replaceable(template)
    ensures var a, start := AfterStartLine(template), Index(template, START).value;
            start + |START| <= a - 1 && template[a - 1] == '\n' && forall j | start <= j < a - 1 :: template[j] != '\n'
  {
    hide Index;
    MarkersFitOnALine();
    var start := Index(template, START).value;
    OccursWithinLine(template, START, start);
    LineEnd(template, start);
  }

  lemma {:induction false} LineEnd(s: string, start: nat)
    requires start <= |s| && '\n' in s[start..]
    ensures var n := start + FirstIndex(s[start..], '\n').value;
            n < |s| && s[n] == '\n' && forall j | start <= j < n :: s[j] != '\n'
  {
    hide FirstIndex;
    var k := FirstIndex(s[start..], '\n').value;
    forall j | start <= j < start + k ensures s[j] != '\n' {
      assert s[j] == s[start..][j - start];
    }
  }

  /** The first occurrence stays first when text after it changes. */
  lemma {:induction false} IndexKept(s: string, s': string, p: string, a: nat)
    requires a <= |s| && a <= |s'| && s[..a] == s'[..a]
    requires Index(s, p).Some? && Index(s, p).value + |p| <= a
    ensures Index(s', p) == Index(s, p)
  {
    var k := Index(s, p).value;
    forall j | 0 <= j <= k ensures OccursAt(s', p, j) <==> OccursAt(s, p, j) {
      assert s[j..j + |p|] == s[..a][j..j + |p|] && s'[j..j + |p|] == s'[..a][j..j + |p|];
    }
  }

  /** The replaced text starts as the template does: same start marker, same end of its line. */
  lemma {:induction false} SameStart(template: string, replaced: string)
    requires Replaceable(template)
    requires var a := AfterStartLine(template); a <= |replaced| && replaced[..a] == template[..a]
    ensures Index(replaced, START) == Index(template, START) && '\n' in replaced[Index(template, START).value..]
    ensures Replaceable(replaced) ==> AfterStartLine(replaced) == AfterStartLine(template)
  {
    var a, start := AfterStartLine(template), Index(template, START).value;
    StartLine(template);
    IndexKept(template, replaced, START, a);
    forall j | 0 <= j < a ensures replaced[j] == template[j] {
      assert replaced[..a][j] == template[..a][j];
    }
    assert replaced[start..][a - 1 - start] == '\n';
    forall j | 0 <= j < a - 1 - start ensures replaced[start..][j] != '\n' {
      assert replaced[start..][j] == template[start + j];
    }
  }

  /** An end marker within the start line stays where it is. */
  lemma {:induction false} EarlyEndStays(template: string, replaced: string)
    requires Replaceable(template) && EndAt(template) < AfterStartLine(template)
    requires var a := AfterStartLine(template); a <= |replaced| && replaced[..a] == template[..a]
    ensures Index(replaced, END) == Index(template, END)
  {
    var a, e := AfterStartLine(template), EndAt(template);
    StartLine(template);
    MarkersFitOnALine();
    OccursWithinLine(template, END, e);
    IndexKept(template, replaced, END, a);
  }

  /** Where the end marker can occur in text that was replaced with the end marker after the start line. */
  lemma {:induction false} EndInReplaced(before: string, content: string, after: string, j: nat)
    requires before != [] && before[|before| - 1] == '\n'
    requires forall i | 0 <= i <= |before| :: !OccursAt(before, END, i)
    requires OccursAt(before + content + "\n" + after, END, j) && j < |before| + |content| + 1
    ensures |before| <= j && OccursAt(content, END, j - |before|)
  {
    var s, p := before + content + "\n" + after, |before| + |content|;
    MarkersFitOnALine();
    assert s[|before| - 1] == '\n' && s[p] == '\n';
    OccursWithinLine(s, END, j);
    if j < |before| {
      assert s[j..j + |END|] == before[j..j + |END|];
      assert OccursAt(before, END, j);
    } else {
      assert s[j..j + |END|] == content[j - |before|..j - |before| + |END|];
    }
  }

  /** Up to its end the start line holds no end marker, if the first one lies after it. */
  lemma {:induction false} NoEndBefore(template: string)
    requires Replaceable(template) && EndAt(template) >= AfterStartLine(template)
    ensures var before := template[..AfterStartLine(template)];
            forall i | 0 <= i <= |before| :: !OccursAt(before, END, i)
  {
    MarkersFitOnALine();
    var a := AfterStartLine(template);
    forall i | 0 <= i <= a ensures !OccursAt(template[..a], END, i) {
      if OccursAt(template[..a], END, i) {
        assert template[i..i + |END|] == template[..a][i..i + |END|];
        assert OccursAt(template, END, i);
      }
    }
  }

  /** An end marker after the start line stays the first one exactly if the content has none. */
  lemma {:induction false} LateEndMoves(before: string, content: string, after: string)
    requires before != [] && before[|before| - 1] == '\n' && OccursAt(after, END, 0)
    requires forall i | 0 <= i <= |before| :: !OccursAt(before, END, i)
    ensures var e, bound := Index(before + content + "\n" + after, END), |before| + |content| + 1;
            e.Some? && e.value <= bound && (e.value == bound <==> Index(content, END).None?)
  {
    hide Index;
    var replaced, bound := before + content + "\n" + after, |before| + |content| + 1;
    assert replaced[bound..bound + |END|] == after[0..0 + |END|];
    assert OccursAt(replaced, END, bound);
    if Index(content, END).Some? {
      var k := Index(content, END).value;
      assert replaced[|before| + k..|before| + k + |END|] == content[k..k + |END|];
      assert OccursAt(replaced, END, |before| + k);
    }
    var e := Index(replaced, END).value;
    if e < bound {
      EndInReplaced(before, content, after, e);
    }
  }

  /** Whether replacing again leaves nothing of what was put in. */
  predicate Absorbs(template: string, content: string) {
    Replaceable(template) ==>
      EndAt(template) >= AfterStartLine(template) && Index(content, END).None?
  }

  /** From the first end marker of the replaced text on it is as before exactly if the content has none. */
  lemma {:induction false} LateEndKept(before: string, content: string, after: string)
    requires before != [] && before[|before| - 1] == '\n' && OccursAt(after, END, 0)
    requires forall i | 0 <= i <= |before| :: !OccursAt(before, END, i)
    ensures var replaced := before + content + "\n" + after;
            var e := Index(replaced, END);
            e.Some? && (replaced[e.value..] == after <==> Index(content, END).None?)
  {
    hide Index;
    LateEndMoves(before, content, after);
    var replaced, bound := before + content + "\n" + after, |before| + |content| + 1;
    assert |replaced| == bound + |after| && replaced[bound..] == after;
  }

  lemma {:induction false} EndOpens(template: string)
    requires Replaceable(template)
    ensures OccursAt(template[EndAt(template)..], END, 0)
  {
    hide IndexFrom;
    var e := EndAt(template);
    assert template[e..][0..0 + |END|] == template[e..e + |END|];
  }

  /** The replaced template is replaced at the same place, and from its end marker on it is as before if it absorbs. */
  lemma {:induction false} ReplacedAgain(template: string, content: string)
    requires Replaceable(template)
    ensures var replaced, a := ReplacePlaceholder(template, content), AfterStartLine(template);
            && Replaceable(replaced) && AfterStartLine(replaced) == a && replaced[..a] == template[..a]
            && (replaced[EndAt(replaced)..] == template[EndAt(template)..] <==> Absorbs(template, content))
  {
    hide Index;
    var a, e := AfterStartLine(template), EndAt(template);
    var before, after := template[..a], template[e..];
    var replaced := before + content + "\n" + after;
    ReplacedText(template, content);
    assert replaced[..a] == before && |replaced| == a + |content| + 1 + |after|;
    SameStart(template, replaced);
    if e < a {
      EarlyEndStays(template, replaced);
    } else {
      StartLine(template);
      NoEndBefore(template);
      EndOpens(template);
      hide OccursAt, ReplacePlaceholder, AfterStartLine;
      LateEndKept(before, content, after);
    }
  }

  /**
   Replacing with c1 and then with c2 is replacing with c2, exactly when the template has
   no markers to replace between, or its first end marker lies after the start line and c1
   does not contain the end marker.
   */
  lemma {:induction false} ReplacementAbsorbsExactly(template: string, c1: string, c2: string)
    ensures ReplacePlaceholder(ReplacePlaceholder(template, c1), c2) == ReplacePlaceholder(template, c2)
            <==> Absorbs(template, c1)
  {
    hide Index, Absorbs, AfterStartLine, EndAt;
    if Replaceable(template) {
      var replaced, a := ReplacePlaceholder(template, c1), AfterStartLine(template);
      ReplacedAgain(template, c1);
      ReplacedText(template, c2);
      ReplacedText(replaced, c2);
      SpliceEqual(template[..a], c2, replaced[EndAt(replaced)..], template[EndAt(template)..]);
    } else {
      UnreplaceableAbsorbs(template, c1);
    }
  }

  lemma {:induction false} UnreplaceableAbsorbs(template: string, content: string)
    requires !Replaceable(template)
    ensures Absorbs(template, content)
  {
  }

  lemma {:induction false} SpliceEqual(before: string, content: string, x: string, y: string)
    ensures before + content + "\n" + x == before + content + "\n" + y <==> x == y
  {
    var head := before + content + "\n";
    assert (head + x)[|head|..] == x && (head + y)[|head|..] == y;
  }

  // ------------------------------------------------------------------ generating

  const SEPARATOR := "\n---\n"

  /** A directory entry; reading its content may fail. */
  datatype DirEntry = DirEntry(name: string, isDir: bool, content: Option<string>)

  predicate IsCRD(entry: DirEntry) {
    !entry.isDir && |entry.name| >= 5 && entry.name[|entry.name| - 5..] == ".yaml"
  }

  /** The contents of the CRD files among the first `n` entries, in order. */
  function Contents(entries: seq<DirEntry>, n: nat): seq<string>
    requires n <= |entries|
  {
    if n == 0 then []
    else Contents(entries, n - 1) + if IsCRD(entries[n - 1]) then [entries[n - 1].content.GetOr("")] else []
  }

  function Separated(contents: seq<string>): string {
    if contents == [] then ""
    else if |contents| == 1 then contents[0]
    else Separated(contents[..|contents| - 1]) + SEPARATOR + contents[|contents| - 1]
  }

  lemma {:induction false} SeparatedExtends(contents: seq<string>, content: string)
    ensures Separated(contents + [content]) ==
              if contents == [] then "" + content else Separated(contents) + SEPARATOR + content
  {
    assert (contents + [content])[..|contents|] == contents;
  }

  /** The text of all CRDs, if the directory and every one of its CRD files can be read. */
  function AllCRDs(listing: Option<seq<DirEntry>>): Option<string> {
    match listing
    case None => None
    case Some(entries) =>
      if exists entry <- entries :: IsCRD(entry) && entry.content.None? then None
      else Some(Separated(Contents(entries, |entries|)))
  }

  /** All CRDs with a separator between each two, or an error if the directory or one of them cannot be read. */
  method ReadAllCRDs(listing: Option<seq<DirEntry>>) returns (crds: Option<string>)
    ensures crds == AllCRDs(listing)
  {
    hide IsCRD;
    if listing.None? {
      return None;
    }
    var entries := listing.value;
    var buf, crdCount := "", 0;
    for i := 0 to |entries|
      invariant forall j | 0 <= j < i :: IsCRD(entries[j]) ==> entries[j].content.Some?
      invariant buf == Separated(Contents(entries, i)) && crdCount == |Contents(entries, i)|
    {
      if IsCRD(entries[i]) {
        if entries[i].content.None? {
          return None;
        }
        SeparatedExtends(Contents(entries, i), entries[i].content.value);
        if crdCount > 0 {
          buf := buf + SEPARATOR;
        }
        crdCount := crdCount + 1;
        buf := buf + entries[i].content.value;
      } else {
        assert Contents(entries, i) + [] == Contents(entries, i);
      }
    }
    crds := Some(buf);
  }

  /** The contents lie one after the other in the text, with a separator between each two and nothing else. */
  ghost predicate LaidOut(text: string, contents: seq<string>, offsets: seq<nat>) {
    var n := |contents|;
    && |offsets| == n
    && (if n == 0 then text == "" else offsets[0] == 0 && offsets[n - 1] + |contents[n - 1]| == |text|)
    && (forall j | 0 <= j < n :: OccursAt(text, contents[j], offsets[j]))
    && (forall j | 0 < j < n :: SeparatedAt(text, contents, offsets, j))
  }

  ghost predicate SeparatedAt(text: string, contents: seq<string>, offsets: seq<nat>, j: nat)
    requires 0 < j < |contents| == |offsets|
  {
    var end := offsets[j - 1] + |contents[j - 1]|;
    OccursAt(text, "\n---\n", end) && offsets[j] == end + 5
  }

  lemma {:induction false} SeparatedStill(
    text: string, contents: seq<string>, offsets: seq<nat>, j: nat, rest: string, content: string, offset: nat)
    requires 0 < j < |contents| == |offsets| && SeparatedAt(text, contents, offsets, j)
    ensures SeparatedAt(text + rest, contents + [content], offsets + [offset], j)
  {
    hide OccursAt;
    OccursStill(text, "\n---\n", offsets[j - 1] + |contents[j - 1]|, rest);
  }

  lemma {:induction false} OccursStill(text: string, p: string, i: nat, rest: string)
    requires OccursAt(text, p, i)
    ensures OccursAt(text + rest, p, i)
  {
    assert (text + rest)[i..i + |p|] == text[i..i + |p|];
  }

  lemma {:induction false} LaidOutExtends(text: string, contents: seq<string>, offsets: seq<nat>, content: string)
    returns (after: seq<nat>)
    requires LaidOut(text, contents, offsets)
    ensures LaidOut(if contents == [] then content else text + SEPARATOR + content, contents + [content], after)
  {
    if contents == [] {
      after := [0];
      assert content[0..0 + |content|] == content;
    } else {
      hide OccursAt;
      var n, rest := |contents|, SEPARATOR + content;
      after := offsets + [|text| + 5];
      assert text + SEPARATOR + content == text + rest;
      assert OccursAt(text + rest, content, |text| + 5) by { OccursAfter(text, SEPARATOR, content); }
      assert OccursAt(text + rest, SEPARATOR, |text|) by { OccursAfter(text, SEPARATOR, content); }
      forall j | 0 <= j < n + 1 ensures OccursAt(text + rest, (contents + [content])[j], after[j]) {
        if j < n { OccursStill(text, contents[j], offsets[j], rest); }
      }
      forall j | 0 < j < n + 1 ensures SeparatedAt(text + rest, contents + [content], after, j) {
        if j < n { SeparatedStill(text, contents, offsets, j, rest, content, |text| + 5); }
      }
    }
  }

  lemma {:induction false} OccursAfter(text: string, a: string, b: string)
    ensures OccursAt(text + (a + b), a, |text|) && OccursAt(text + (a + b), b, |text| + |a|)
  {
    var s := text + (a + b);
    assert s[|text|..|text| + |a|] == a && s[|text| + |a|..|text| + |a| + |b|] == b;
  }

  /** The entries that are files with the suffix of CRDs. */
  function IsYaml(entries: seq<DirEntry>): nat -> bool {
    (i: nat) =>
      i < |entries| && !entries[i].isDir && |entries[i].name| >= 5
      && entries[i].name[|entries[i].name| - 5..] == ".yaml"
  }

  /** The contents of the entries at these indices. */
  ghost predicate AreContents(contents: seq<string>, entries: seq<DirEntry>, kept: seq<nat>) {
    && |contents| == |kept|
    && forall j | 0 <= j < |kept| :: kept[j] < |entries| && entries[kept[j]].content == Some(contents[j])
  }

  lemma {:induction false} ContentsLaidOut(entries: seq<DirEntry>, n: nat)
    returns (kept: seq<nat>, contents: seq<string>, offsets: seq<nat>)
    requires n <= |entries| && forall i: nat | i < n && IsYaml(entries)(i) :: entries[i].content.Some?
    ensures AreKept(kept, n, IsYaml(entries)) && AreContents(contents, entries, kept)
    ensures contents == Contents(entries, n) && LaidOut(Separated(contents), contents, offsets)
  {
    hide AreKept, LaidOut, Separated;
    if n == 0 {
      kept, contents, offsets := [], [], [];
      NothingKept(IsYaml(entries));
      assert LaidOut(Separated([]), [], []) by { NothingLaidOut(); }
    } else {
      kept, contents, offsets := ContentsLaidOut(entries, n - 1);
      KeptExtends(kept, n - 1, IsYaml(entries));
      if IsYaml(entries)(n - 1) {
        var content := entries[n - 1].content.value;
        SeparatedExtends(contents, content);
        offsets := LaidOutExtends(Separated(contents), contents, offsets, content);
        assert "" + content == content;
        kept, contents := kept + [n - 1], contents + [content];
      }
    }
  }

  lemma {:induction false} NothingLaidOut()
    ensures LaidOut(Separated([]), [], [])
  {
  }

  /**
   The text of all CRDs exists exactly if every .yaml file of the directory can be read, and
   then holds exactly their contents, in order, with a separator between each two.
   */
  lemma {:induction false} CRDsInText(entries: seq<DirEntry>)
    returns (kept: seq<nat>, contents: seq<string>, offsets: seq<nat>)
    ensures AllCRDs(Some(entries)).Some? <==>
              forall i: nat | i < |entries| && IsYaml(entries)(i) :: entries[i].content.Some?
    ensures AllCRDs(Some(entries)).Some? ==>
              && AreKept(kept, |entries|, IsYaml(entries)) && AreContents(contents, entries, kept)
              && LaidOut(AllCRDs(Some(entries)).value, contents, offsets)
  {
    hide AreKept, LaidOut, Separated, Contents, AreContents;
    kept, contents, offsets := [], [], [];
    assert forall i: nat | i < |entries| :: IsYaml(entries)(i) <==> IsCRD(entries[i]);
    assert forall i: nat | i < |entries| :: entries[i] in entries;
    if AllCRDs(Some(entries)).Some? {
      kept, contents, offsets := ContentsLaidOut(entries, |entries|);
    }
  }

  /** insertCRDsIntoHelm: the template file afterwards, whether it can be read and written or not. */
  method InsertCRDsIntoHelm(listing: Option<seq<DirEntry>>, template: string, readOk: bool, writeOk: bool)
    returns (stored: string, ok: bool)
    ensures ok <==> AllCRDs(listing).Some? && readOk && writeOk
    ensures stored == if ok then ReplacePlaceholder(template, AllCRDs(listing).value) else template
  {
    stored, ok := template, false;
    var crds := ReadAllCRDs(listing);
    if crds.None? || !readOk {
      return;
    }
    var updatedContent := ReplacePlaceholder(template, crds.value);
    if writeOk {
      stored, ok := updatedContent, true;
    }
  }

  /** Regenerating changes nothing exactly under the same condition. */
  lemma {:induction false} RegenerationIsIdempotent(template: string, crds: string)
    ensures var once := ReplacePlaceholder(template, crds);
            ReplacePlaceholder(once, crds) == once <==> Absorbs(template, crds)
  {
    ReplacementAbsorbsExactly(template, crds, crds);
  }
}
