/** The wrapped description in terms of its characters: where the lines are cut, what is written around
    them and what is dropped.  Nothing here uses the functions that compute the output. */
module DescriptionLayout {
  import opened DescriptionWrapper
  import opened DescriptionWrapperTheorems

  // ---------- where lines are cut ----------

  /** None of the characters from position from up to to is a newline. */
  ghost predicate NoNewline(d: string, from: nat, to: nat)
    requires to <= |d|
  {
    forall k | from <= k < to :: d[k] != '\n'
  }

  ghost predicate NoBlank(d: string, from: nat, to: nat)
    requires to <= |d|
  {
    forall k | from <= k < to :: d[k] != ' ' && d[k] != '\t'
  }

  /** At most w characters and then all the newlines that follow. */
  ghost predicate CutAtNewline(d: string, s: nat, e: nat, w: nat) {
    exists n: nat :: NewlinesFrom(d, s, n, e) && n <= s + w
  }

  ghost predicate NewlinesFrom(d: string, s: nat, n: nat, e: nat) {
    && s <= n < e < |d| && NoNewline(d, s, n)
    && (forall k | n <= k < e :: d[k] == '\n') && d[e] != '\n'
  }

  /** More than w characters without a newline are cut behind the last space or tab among the first w,
      and behind the first w if there is none. */
  ghost predicate CutWhenFull(d: string, s: nat, e: nat, w: nat) {
    && s < e <= s + w < |d| && NoNewline(d, s, s + w + 1) && NoBlank(d, e, s + w)
    && (d[e - 1] == ' ' || d[e - 1] == '\t' || (e == s + w && NoBlank(d, s, e)))
  }

  /** The rest fits. */
  ghost predicate CutAtEnd(d: string, s: nat, e: nat, w: nat) {
    s < e == |d| <= s + w && NoNewline(d, s, e)
  }

  ghost predicate IsLine(d: string, s: nat, e: nat, w: nat) {
    CutAtNewline(d, s, e, w) || CutWhenFull(d, s, e, w) || CutAtEnd(d, s, e, w)
  }

  ghost predicate CutInto(d: string, w: nat, cuts: seq<nat>) {
    && |cuts| > 0 && cuts[|cuts| - 1] == |d|
    && forall k | 0 <= k < |cuts| - 1 :: IsLine(d, cuts[k], cuts[k + 1], w)
  }

  lemma TheNewline(d: string, s: nat, e: nat, w: nat) returns (n: nat)
    requires CutAtNewline(d, s, e, w)
    ensures NewlinesFrom(d, s, n, e) && n <= s + w && d[n] == '\n'
  {
    n :| NewlinesFrom(d, s, n, e) && n <= s + w;
  }

  /** There is only one way to end a line. */
  lemma LineIsUnique(d: string, s: nat, e: nat, e': nat, w: nat)
    requires IsLine(d, s, e, w) && IsLine(d, s, e', w)
    ensures e == e'
  {
    if CutAtNewline(d, s, e, w) {
      var n := TheNewline(d, s, e, w);
      if CutAtNewline(d, s, e', w) {
        var n' := TheNewline(d, s, e', w);
      }
    } else if CutAtNewline(d, s, e', w) {
      var n' := TheNewline(d, s, e', w);
    }
  }

  lemma NoLineAtEnd(d: string, e: nat, w: nat)
    ensures !IsLine(d, |d|, e, w)
  {
  }

  /** So the cuts are decided by the description and the width. */
  lemma {:induction false} CutsAreUnique(d: string, w: nat, cuts: seq<nat>, cuts': seq<nat>)
    requires CutInto(d, w, cuts) && CutInto(d, w, cuts') && cuts[0] == cuts'[0]
    ensures cuts == cuts'
  {
    if |cuts| > 1 && |cuts'| > 1 {
      assert IsLine(d, cuts[0], cuts[1], w) && IsLine(d, cuts'[0], cuts'[1], w);
      LineIsUnique(d, cuts[0], cuts[1], cuts'[1], w);
      CutsAreUnique(d, w, cuts[1..], cuts'[1..]);
      assert cuts == [cuts[0]] + cuts[1..] && cuts' == [cuts'[0]] + cuts'[1..];
    } else if |cuts| > 1 {
      NoLineAtEnd(d, cuts[1], w);
    } else if |cuts'| > 1 {
      NoLineAtEnd(d, cuts'[1], w);
    }
  }

  lemma NextIsLine(d: string, s: nat, w: nat)
    requires Padded(d) && s < |d| && w > 0
    ensures IsLine(d, s, NextStart(d, s, w), w)
  {
    var c, e := LineEnd(d, s, s, w), NextStart(d, s, w);
    if c < |d| && d[c] == '\n' {
      assert NewlinesFrom(d, s, c, e);
    }
  }

  /** The last line of the theorems about lost text begins at the last cut but one. */
  lemma {:induction false} LastCut(d: string, s: nat, w: nat, cuts: seq<nat>)
    requires Padded(d) && s < |d| && w > 0 && CutInto(d, w, cuts) && cuts[0] == s
    ensures |cuts| > 1 && cuts[|cuts| - 2] == LastStart(d, s, w)
    decreases |d| - s
  {
    var e := NextStart(d, s, w);
    assert IsLine(d, cuts[0], cuts[1], w);
    NextIsLine(d, s, w);
    LineIsUnique(d, s, cuts[1], e, w);
    if e < |d| {
      LastCut(d, e, w, cuts[1..]);
    } else if |cuts| > 2 {
      assert IsLine(d, cuts[1], cuts[2], w);
      NoLineAtEnd(d, cuts[2], w);
    }
  }

  // ---------- what is written ----------

  /** So many spaces. */
  ghost predicate Indents(indent: string, n: nat) {
    |indent| == n && forall k | 0 <= k < n :: indent[k] == ' '
  }

  /** What is written for the line from s to e: on every line but the first an indent, the characters,
      and a newline if they do not end with one.  Of the last line the added space is left out, and the
      line is dropped if only spaces and tabs stand behind its first character, or, when it is also the
      first line, if it has nothing else. */
  ghost predicate IsPiece(d: string, start: nat, s: nat, e: nat, piece: string) {
    exists indent: string :: Indents(indent, if s > 0 then start else 0) && IsIndented(d, indent, s, e, piece)
  }

  ghost predicate IsIndented(d: string, indent: string, s: nat, e: nat, piece: string) {
    && s < e <= |d|
    && if e < |d| then piece == indent + d[s..e] + if d[e - 1] == '\n' then "" else "\n"
       else if Invisible(d, if s > 0 then s + 1 else 0, |d|) then piece == indent
       else piece == indent + d[s..|d| - 1]
  }

  ghost function Joined(pieces: seq<string>): string {
    if pieces == [] then "" else pieces[0] + Joined(pieces[1..])
  }

  /** The output begins with an empty line and an indent if no character is allowed on a line and the
      description does not begin with a newline. */
  ghost predicate IsLead(d: string, start: nat, allowed: nat, lead: string)
    requires d != []
  {
    if allowed > 0 || d[0] == '\n' then lead == "" else lead != [] && lead[0] == '\n' && Indents(lead[1..], start)
  }

  /** The whole output. */
  ghost predicate IsLayout(d: string, start: nat, allowed: nat, cuts: seq<nat>, lead: string, pieces: seq<string>, output: string)
    requires d != []
  {
    && CutInto(d, if allowed == 0 then 1 else allowed, cuts) && cuts[0] == 0 && |pieces| == |cuts| - 1
    && (forall k | 0 <= k < |pieces| :: IsPiece(d, start, cuts[k], cuts[k + 1], pieces[k]))
    && IsLead(d, start, allowed, lead) && output == lead + Joined(pieces)
  }

  lemma LineIsPiece(d: string, s: nat, w: nat, start: nat)
    requires Padded(d) && s < |d| && w > 0
    ensures IsPiece(d, start, s, NextStart(d, s, w), RenderLine(Lines(d, s, w)[0], start))
  {
    var e, line := NextStart(d, s, w), Lines(d, s, w)[0];
    var indent := if s > 0 then Spaces(start) else "";
    assert Indents(indent, if s > 0 then start else 0);
    assert line.indented == (s > 0);
    assert RenderLine(line, start) == indent + line.text + if line.broken then "\n" else "";
    assert e == |d| ==> (KeepsLast(d, s) <==> !Invisible(d, if s > 0 then s + 1 else 0, |d|));
    assert indent + "" + "" == indent && indent + d[s..|d| - 1] + "" == indent + d[s..|d| - 1];
    assert IsIndented(d, indent, s, e, RenderLine(line, start));
  }

  lemma JoinedOne(piece: string, rest: seq<string>)
    ensures Joined([piece] + rest) == piece + Joined(rest)
  {
    assert ([piece] + rest)[1..] == rest;
  }

  lemma {:induction false} LinesAreLayout(d: string, s: nat, w: nat, start: nat) returns (cuts: seq<nat>, pieces: seq<string>)
    requires Padded(d) && s < |d| && w > 0
    ensures CutInto(d, w, cuts) && cuts[0] == s && |pieces| == |cuts| - 1
    ensures forall k | 0 <= k < |pieces| :: IsPiece(d, start, cuts[k], cuts[k + 1], pieces[k])
    ensures Joined(pieces) == Render(Lines(d, s, w), start)
    decreases |d| - s
  {
    var e := NextStart(d, s, w);
    var line := Lines(d, s, w)[0];
    var first := RenderLine(line, start);
    NextIsLine(d, s, w);
    LineIsPiece(d, s, w, start);
    if e == |d| {
      cuts, pieces := [s, e], [first];
      RenderOne(line, [], start);
      JoinedOne(first, []);
      assert Lines(d, s, w) == [line] + [] && pieces == [first] + [];
    } else {
      var cuts', pieces' := LinesAreLayout(d, e, w, start);
      cuts, pieces := [s] + cuts', [first] + pieces';
      RenderOne(line, Lines(d, e, w), start);
      JoinedOne(first, pieces');
    }
  }

  /** The output of the wrapper is this layout, for every description, indent and width. */
  lemma OutputIsLayout(desc: string, start: nat, allowed: nat) returns (cuts: seq<nat>, lead: string, pieces: seq<string>)
    ensures var d := desc + " ";
      IsLayout(d, start, allowed, cuts, lead, pieces, Lead(d, start, allowed) + Render(Lines(d, 0, Width(allowed)), start))
  {
    var d := desc + " ";
    cuts, pieces := LinesAreLayout(d, 0, Width(allowed), start);
    lead := Lead(d, start, allowed);
    assert lead != "" ==> lead[1..] == Spaces(start);
  }
}
