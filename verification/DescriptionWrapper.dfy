/** The line wrapper for option descriptions. */
module DescriptionWrapper {

  predicate Blank(c: char) {
    c == ' ' || c == '\t'
  }

  /** The characters at from, from + 1, ... below to are blank. */
  predicate AllBlank(d: string, from: nat, to: nat)
    requires to <= |d|
  {
    forall k | from <= k < to :: Blank(d[k])
  }

  function Spaces(n: nat): string {
    seq(n, i => ' ')
  }

  /** The wrapper works on the description with one space added. */
  predicate Padded(d: string) {
    d != [] && d[|d| - 1] == ' '
  }

  // ---------- where lines start ----------

  /** The first newline at or after c, the position that is allowed characters behind s, or the end. */
  function LineEnd(d: string, s: nat, c: nat, allowed: nat): (e: nat)
    requires s <= c <= |d| && c <= s + allowed
    ensures c <= e <= |d| && e <= s + allowed
    ensures forall k | c <= k < e :: d[k] != '\n'
    ensures e < |d| && d[e] != '\n' ==> e == s + allowed
    decreases |d| - c
  {
    if c == |d| || d[c] == '\n' || c == s + allowed then c else LineEnd(d, s, c + 1, allowed)
  }

  function SkipNewlines(d: string, c: nat): (e: nat)
    requires c <= |d|
    ensures c <= e <= |d| && forall k | c <= k < e :: d[k] == '\n'
    ensures e < |d| ==> d[e] != '\n'
    decreases |d| - c
  {
    if c == |d| || d[c] != '\n' then c else SkipNewlines(d, c + 1)
  }

  /** The last position in s < x <= c behind a blank, or s. */
  function LastBlank(d: string, s: nat, c: nat): (x: nat)
    requires s <= c <= |d|
    ensures s <= x <= c
    ensures x > s ==> Blank(d[x - 1])
    ensures forall y | x <= y < c :: !Blank(d[y])
  {
    if c == s then s else if Blank(d[c - 1]) then c else LastBlank(d, s, c - 1)
  }

  /** Where the line after the one that starts at s begins; |d| when it is the last. */
  function NextStart(d: string, s: nat, allowed: nat): (e: nat)
    requires Padded(d) && s < |d| && allowed > 0
    ensures s < e <= |d|
    ensures e < |d| ==> d[e] != '\n' || d[e - 1] != '\n'
  {
    var c := LineEnd(d, s, s, allowed);
    if c == |d| then c
    else if d[c] == '\n' then SkipNewlines(d, c)
    else if LastBlank(d, s, c) > s then LastBlank(d, s, c)
    else c
  }

  function LastStart(d: string, s: nat, allowed: nat): (last: nat)
    requires Padded(d) && s < |d| && allowed > 0
    ensures s <= last < |d|
    decreases |d| - s
  {
    var e := NextStart(d, s, allowed);
    if e == |d| then s else LastStart(d, e, allowed)
  }

  // ---------- the output ----------

  /** An output line: every line but the first is indented, broken marks an inserted newline. */
  datatype OutLine = OutLine(indented: bool, text: string, broken: bool)

  /** Where the wrapper starts to look for a character that is not blank: at the second one of a
      line, on the first line at the first one. */
  function First(s: nat): nat {
    if s == 0 then 0 else s + 1
  }

  predicate KeepsLast(d: string, s: nat)
    requires s < |d|
  {
    !AllBlank(d, First(s), |d|)
  }

  function Lines(d: string, s: nat, allowed: nat): (lines: seq<OutLine>)
    requires Padded(d) && s < |d| && allowed > 0
    decreases |d| - s
  {
    var e := NextStart(d, s, allowed);
    if e == |d| then [OutLine(s > 0, if KeepsLast(d, s) then d[s..|d| - 1] else "", false)]
    else [OutLine(s > 0, d[s..e], d[e - 1] != '\n')] + Lines(d, e, allowed)
  }

  function RenderLine(line: OutLine, start: nat): string {
    (if line.indented then Spaces(start) else "") + line.text + if line.broken then "\n" else ""
  }

  function Render(lines: seq<OutLine>, start: nat): string {
    if lines == [] then "" else RenderLine(lines[0], start) + Render(lines[1..], start)
  }

  /** What is still to be written when a line starts at s: its indent is already out. */
  ghost function Remaining(d: string, s: nat, start: nat, allowed: nat): string
    requires Padded(d) && s < |d| && allowed > 0
    decreases |d| - s
  {
    var e := NextStart(d, s, allowed);
    if e == |d| then if KeepsLast(d, s) then d[s..|d| - 1] else ""
    else d[s..e] + (if d[e - 1] != '\n' then "\n" else "") + Spaces(start) + Remaining(d, e, start, allowed)
  }

  lemma RenderOne(line: OutLine, rest: seq<OutLine>, start: nat)
    ensures Render([line] + rest, start) == RenderLine(line, start) + Render(rest, start)
  {
    assert ([line] + rest)[1..] == rest;
  }

  lemma Regroup(a: string, b: string, c: string, e: string, f: string)
    ensures a + (b + c + e + f) == (a + b + c) + (e + f)
  {
  }

  lemma {:induction false} RemainingIsRender(d: string, s: nat, start: nat, allowed: nat)
    requires Padded(d) && s < |d| && allowed > 0
    ensures (if s > 0 then Spaces(start) else "") + Remaining(d, s, start, allowed) == Render(Lines(d, s, allowed), start)
    decreases |d| - s
  {
    var e := NextStart(d, s, allowed);
    if e == |d| {
      RenderOne(OutLine(s > 0, if KeepsLast(d, s) then d[s..|d| - 1] else "", false), [], start);
      assert Lines(d, s, allowed) == [OutLine(s > 0, if KeepsLast(d, s) then d[s..|d| - 1] else "", false)] + [];
    } else {
      RemainingIsRender(d, e, start, allowed);
      RenderOne(OutLine(s > 0, d[s..e], d[e - 1] != '\n'), Lines(d, e, allowed), start);
      Regroup(if s > 0 then Spaces(start) else "", d[s..e], if d[e - 1] != '\n' then "\n" else "",
              Spaces(start), Remaining(d, e, start, allowed));
    }
  }

  lemma {:induction false} LineEndIs(d: string, s: nat, c: nat, allowed: nat, e: nat)
    requires s <= c <= e <= |d| && e <= s + allowed
    requires forall k | c <= k < e :: d[k] != '\n'
    requires e == |d| || d[e] == '\n' || e == s + allowed
    ensures LineEnd(d, s, c, allowed) == e
    decreases e - c
  {
    if c < e {
      LineEndIs(d, s, c + 1, allowed, e);
    }
  }

  /** The end of the line that starts at s and was read up to end. */
  lemma BreakIsNextStart(d: string, s: nat, end: nat, lastSpace: nat, allowed: nat)
    requires Padded(d) && allowed > 0 && s <= end < |d| && end <= s + allowed && lastSpace == LastBlank(d, s, end)
    requires forall k | s <= k < end :: d[k] != '\n'
    requires d[end] == '\n' || end == s + allowed
    ensures NextStart(d, s, allowed) ==
            if d[end] == '\n' then SkipNewlines(d, end) else if lastSpace > s then lastSpace else end
  {
    LineEndIs(d, s, s, allowed, end);
  }

  lemma BreakWrites(d: string, s: nat, e: nat, result: string, start: nat, allowed: nat)
    requires Padded(d) && s < e < |d| && allowed > 0 && e == NextStart(d, s, allowed)
    ensures result + Remaining(d, s, start, allowed) == Broken(d, s, e, result, start) + Remaining(d, e, start, allowed)
  {
    Regroup(result, d[s..e], if d[e - 1] != '\n' then "\n" else "", Spaces(start), Remaining(d, e, start, allowed));
  }

  /** The output after a break that ends the line s at e. */
  function Broken(d: string, s: nat, e: nat, result: string, start: nat): string
    requires s <= e <= |d| && e > 0
  {
    result + d[s..e] + (if d[e - 1] != '\n' then "\n" else "") + Spaces(start)
  }

  // ---------- the loop ----------

  method PassNewlines(d: string, current: nat, previous: nat) returns (next: nat, last: nat, passed: bool)
    requires Padded(d) && current < |d| && previous < |d|
    ensures next == SkipNewlines(d, current) < |d| && passed == (d[current] == '\n')
    ensures passed ==> next > current
    ensures last == if passed then next - 1 else previous
  {
    next, last, passed := current, previous, false;
    while d[next] == '\n'
      invariant current <= next < |d| && SkipNewlines(d, next) == SkipNewlines(d, current)
      invariant passed == (next > current)
      invariant last == if passed then next - 1 else previous
      invariant next == current || d[current] == '\n'
      decreases |d| - next
    {
      last := next;
      next := next + 1;
      passed := true;
    }
  }

  method WriteBreak(d: string, startLine: nat, current: nat, previous: nat, result: string, start: nat) returns (more: string)
    requires startLine <= current < |d| && previous < |d|
    ensures more == result + d[startLine..current] + (if d[previous] != '\n' then "\n" else "") + Spaces(start)
  {
    more := result + d[startLine..current];
    var lastSpace := current;
    if d[previous] != '\n' {
      more := more + "\n";
    }
    more := more + Spaces(start);
    if d[previous] != '\n' {
      more := more + d[lastSpace..current];
    }
  }

  /** The state of the loop: the line that starts at startLine was read up to current. */
  ghost predicate Reading(d: string, startLine: nat, current: nat, previous: nat, lastSpace: nat, size: nat) {
    && startLine <= current <= |d| && startLine < |d| && size == current - startLine
    && (current == startLine ==> current == 0)
    && previous == (if current == startLine then current else current - 1)
    && lastSpace == LastBlank(d, startLine, previous)
    && (forall k | startLine <= k < current :: d[k] != '\n')
  }

  /** The state right behind a break. */
  lemma BreakStartsLine(d: string, s: nat, e: nat)
    requires Padded(d) && s <= e < |d| && d[e] != '\n'
    ensures Reading(d, e, e + 1, e, e, 1)
  {
  }

  /** With no character allowed the loop wraps like with one. */
  function Width(allowed: nat): (w: nat)
    ensures w > 0
  {
    if allowed == 0 then 1 else allowed
  }

  /** But then its first turn, unless it finds a newline, begins with an empty line. */
  function Lead(d: string, start: nat, allowed: nat): string
    requires d != []
  {
    if allowed == 0 && d[0] != '\n' then "\n" + Spaces(start) else ""
  }

  /** Whether the flag says that the line has been blank so far; right behind an empty first line it
      has not looked at the first character. */
  ghost predicate FlagIs(d: string, allowed: nat, startLine: nat, current: nat, onlyWhiteSpace: bool)
    requires current <= |d|
  {
    (allowed == 0 && startLine == 0 && current == 1 < |d|) || onlyWhiteSpace == AllBlank(d, First(startLine), current)
  }

  lemma FirstIsEmpty(d: string, result: string, start: nat, rest: string)
    requires d != []
    ensures (result + d[0..0] + "\n" + Spaces(start)) + rest == result + ("\n" + Spaces(start)) + rest
  {
  }

  /** The statements of a break, with the cursor where the next line starts. */
  method Break(d: string, startLine: nat, current: nat, previous: nat, result: string, start: nat, allowed: nat)
    returns (more: string)
    requires Padded(d) && startLine <= current < |d| && previous < |d| && d[current] != '\n'
    requires current == 0 ==> allowed == 0 && previous == 0
    requires current > 0 ==> startLine < current == NextStart(d, startLine, Width(allowed))
    requires current > 0 ==> (d[previous] == '\n' <==> d[current - 1] == '\n')
    ensures more + Remaining(d, current, start, Width(allowed)) ==
            result + (if current == 0 then Lead(d, start, allowed) else "") + Remaining(d, startLine, start, Width(allowed))
  {
    more := WriteBreak(d, startLine, current, previous, result, start);
    if current == 0 {
      FirstIsEmpty(d, result, start, Remaining(d, 0, start, Width(allowed)));
    } else {
      BreakWrites(d, startLine, current, result, start, Width(allowed));
      assert result + "" == result;
    }
  }

  /** Whether the line ends here, and where the next one then starts: behind newlines, or when the
      line is full behind its last blank. */
  method FindBreak(d: string, startLine: nat, current: nat, previous: nat, lastSpace: nat, size: nat, allowed: nat)
    returns (next: nat, last: nat, appendNewLine: bool)
    requires Padded(d) && startLine <= current < |d| && previous < |d| && size == current - startLine <= Width(allowed)
    requires (current == startLine ==> current == 0) && previous == (if current == startLine then current else current - 1)
    requires lastSpace == LastBlank(d, startLine, current) && forall k | startLine <= k < current :: d[k] != '\n'
    ensures appendNewLine <==> d[current] == '\n' || size >= allowed
    ensures !appendNewLine ==> next == current && last == previous
    ensures appendNewLine ==> startLine <= next < |d| && last < |d| && d[next] != '\n'
    ensures appendNewLine && next == 0 ==> current == 0 && allowed == 0 && last == 0
    ensures appendNewLine && next > 0 && current == 0 ==> d[0] == '\n'
    ensures appendNewLine && next > 0 ==>
      startLine < next == NextStart(d, startLine, Width(allowed)) && (d[last] == '\n' <==> d[next - 1] == '\n')
  {
    next, last, appendNewLine := PassNewlines(d, current, previous);
    if !appendNewLine && size >= allowed {
      if lastSpace != startLine {
        next := lastSpace;
        last := next;
      }
      appendNewLine := true;
    }
    if appendNewLine && next > 0 {
      BreakIsNextStart(d, startLine, current, lastSpace, Width(allowed));
    }
  }

  /** One turn of the loop.  The cursor moves back when a line is wrapped at its last blank. */
  method Turn(d: string, start: nat, allowed: nat, startLine: nat, current: nat, previous: nat, lastSpace: nat, size: nat,
              onlyWhiteSpace: bool, result: string)
    returns (startLine': nat, current': nat, previous': nat, lastSpace': nat, size': nat, onlyWhiteSpace': bool, result': string)
    requires Padded(d) && current < |d| && Reading(d, startLine, current, previous, lastSpace, size)
    requires size <= Width(allowed) && FlagIs(d, allowed, startLine, current, onlyWhiteSpace)
    ensures Reading(d, startLine', current', previous', lastSpace', size')
    ensures startLine' > startLine || (startLine' == startLine && current' == current + 1)
    ensures size' <= Width(allowed) && FlagIs(d, allowed, startLine', current', onlyWhiteSpace')
    ensures result' + Remaining(d, startLine', start, Width(allowed)) ==
            result + (if current == 0 then Lead(d, start, allowed) else "") + Remaining(d, startLine, start, Width(allowed))
  {
    startLine', lastSpace', size', onlyWhiteSpace', result' := startLine, lastSpace, size, onlyWhiteSpace, result;
    if Blank(d[previous]) {
      lastSpace' := current;
    }
    if !Blank(d[current]) {
      onlyWhiteSpace' := false;
    }
    var appendNewLine;
    current', previous', appendNewLine := FindBreak(d, startLine, current, previous, lastSpace', size, allowed);
    if appendNewLine {
      result' := Break(d, startLine, current', previous', result, start, allowed);
      startLine' := current';
      lastSpace' := current';
      onlyWhiteSpace' := true;
      size' := 0;
      BreakStartsLine(d, startLine, current');
    } else {
      assert result + "" == result;
    }
    previous' := current';
    current' := current' + 1;
    size' := size' + 1;
  }

  /** What is written and what remains make up the whole output. */
  ghost predicate Written(d: string, start: nat, allowed: nat, startLine: nat, current: nat, result: string)
    requires Padded(d) && startLine < |d|
  {
    if current == 0 then result == "" && startLine == 0
    else result + Remaining(d, startLine, start, Width(allowed)) == Lead(d, start, allowed) + Remaining(d, 0, start, Width(allowed))
  }

  lemma NothingAdded(result: string, lead: string, rest: string)
    ensures result + "" + rest == result + rest && "" + lead + rest == lead + rest
  {
  }

  lemma TurnWrites(d: string, start: nat, allowed: nat, startLine: nat, current: nat, result: string,
      startLine': nat, current': nat, result': string)
    requires Padded(d) && startLine < |d| && startLine' < |d| && current' > 0
    requires Written(d, start, allowed, startLine, current, result)
    requires result' + Remaining(d, startLine', start, Width(allowed)) ==
             result + (if current == 0 then Lead(d, start, allowed) else "") + Remaining(d, startLine, start, Width(allowed))
    ensures Written(d, start, allowed, startLine', current', result')
  {
    NothingAdded(result, Lead(d, start, allowed), Remaining(d, startLine, start, Width(allowed)));
  }

  /** What is left is written unless it is blank. */
  method WriteLast(d: string, startLine: nat, previous: nat, onlyWhiteSpace: bool, result: string, ghost start: nat, ghost w: nat)
    returns (more: string)
    requires Padded(d) && startLine < |d| && startLine <= previous == |d| - 1 && w > 0 && NextStart(d, startLine, w) == |d|
    requires onlyWhiteSpace == AllBlank(d, First(startLine), |d|)
    ensures more == result + Remaining(d, startLine, start, w)
  {
    more := result;
    if !onlyWhiteSpace {
      more := more + d[startLine..previous];
    }
  }

  lemma Unindented(remaining: string, output: string, indent: string)
    requires indent + remaining == output && indent == ""
    ensures remaining == output
  {
  }

  lemma OutputIs(d: string, start: nat, allowed: nat, result: string)
    requires Padded(d) && result == Lead(d, start, allowed) + Remaining(d, 0, start, Width(allowed))
    ensures result == Lead(d, start, allowed) + Render(Lines(d, 0, Width(allowed)), start)
  {
    var w := Width(allowed);
    RemainingIsRender(d, 0, start, w);
    Unindented(Remaining(d, 0, start, w), Render(Lines(d, 0, w), start), "");
  }

  /** The loop ends, although the cursor moves back, because the line start then moves on. */
  method WrapPadded(d: string, start: nat, allowed: nat) returns (result: string)
    requires Padded(d)
    ensures result == Lead(d, start, allowed) + Render(Lines(d, 0, Width(allowed)), start)
  {
    result := "";
    var current: nat, previous: nat, startLine: nat, lastSpace: nat := 0, 0, 0, 0;
    var size: nat := 0;
    var onlyWhiteSpace := true;
    while current != |d|
      invariant Reading(d, startLine, current, previous, lastSpace, size)
      invariant size <= Width(allowed) && FlagIs(d, allowed, startLine, current, onlyWhiteSpace)
      invariant Written(d, start, allowed, startLine, current, result)
      decreases |d| - startLine, |d| - current
    {
      ghost var was, line, at := result, startLine, current;
      startLine, current, previous, lastSpace, size, onlyWhiteSpace, result :=
        Turn(d, start, allowed, startLine, current, previous, lastSpace, size, onlyWhiteSpace, result);
      TurnWrites(d, start, allowed, line, at, was, startLine, current, result);
    }
    LineEndIs(d, startLine, startLine, Width(allowed), |d|);
    result := WriteLast(d, startLine, previous, onlyWhiteSpace, result, start, Width(allowed));
    OutputIs(d, start, allowed, result);
  }

  /** The description is wrapped with one space added; for no allowed characters the output is that
      for one, behind an empty line. */
  method FormatDescription(desc: string, start: nat, allowed: nat) returns (result: string)
    ensures result == Lead(desc + " ", start, allowed) + Render(Lines(desc + " ", 0, Width(allowed)), start)
  {
    result := WrapPadded(desc + " ", start, allowed);
  }
}
