/** What the wrapped description is: lines that fit, a prefix of the description when the inserted
    breaks and indents are removed, and exactly when that prefix misses something visible. */
module DescriptionWrapperTheorems {
  import opened DescriptionWrapper

  /** The description's own characters in the output. */
  ghost function Texts(lines: seq<OutLine>): string {
    if lines == [] then "" else lines[0].text + Texts(lines[1..])
  }

  /** At most so many characters, then only newlines. */
  ghost predicate FitsIn(text: string, allowed: nat) {
    exists w: nat :: w <= allowed && Splits(text, w)
  }

  ghost predicate Splits(text: string, w: nat) {
    && w <= |text|
    && (forall k | 0 <= k < w :: text[k] != '\n')
    && (forall k | w <= k < |text| :: text[k] == '\n')
  }

  ghost predicate EndsLine(line: OutLine) {
    line.broken <==> line.text == [] || line.text[|line.text| - 1] != '\n'
  }

  lemma NextFits(d: string, s: nat, allowed: nat)
    requires Padded(d) && s < |d| && allowed > 0
    ensures FitsIn(d[s..NextStart(d, s, allowed)], allowed)
    ensures NextStart(d, s, allowed) == |d| ==> |d| - s <= allowed && forall k | s <= k < |d| :: d[k] != '\n'
  {
    var c, e := LineEnd(d, s, s, allowed), NextStart(d, s, allowed);
    if c < |d| && d[c] == '\n' {
      assert Splits(d[s..e], c - s);
    } else {
      assert Splits(d[s..e], e - s);
    }
  }

  /** No output line is longer than allowed behind its indent, only the first has no indent, and every
      line but the last ends with exactly one kind of newline. */
  lemma {:induction false} EveryLineFits(d: string, s: nat, allowed: nat, k: nat)
    requires Padded(d) && s < |d| && allowed > 0 && k < |Lines(d, s, allowed)|
    ensures var lines := Lines(d, s, allowed);
      && FitsIn(lines[k].text, allowed)
      && (lines[k].indented <==> s > 0 || k > 0)
      && (k < |lines| - 1 ==> EndsLine(lines[k]))
      && (k == |lines| - 1 ==> !lines[k].broken && '\n' !in lines[k].text)
    decreases |d| - s
  {
    var e, lines := NextStart(d, s, allowed), Lines(d, s, allowed);
    NextFits(d, s, allowed);
    if e == |d| {
      assert Splits(lines[0].text, |lines[0].text|);
    } else if k > 0 {
      EveryLineFits(d, e, allowed, k - 1);
      assert lines[k] == Lines(d, e, allowed)[k - 1];
    } else {
      assert lines[0].text == d[s..e];
    }
  }

  lemma TextsCons(line: OutLine, rest: seq<OutLine>)
    ensures Texts([line] + rest) == line.text + Texts(rest)
  {
    assert ([line] + rest)[1..] == rest;
  }

  lemma Adjacent(d: string, s: nat, e: nat, x: nat)
    requires s <= e <= x <= |d|
    ensures d[s..e] + d[e..x] == d[s..x]
  {
  }

  /** Removing the breaks and indents leaves the description up to its end or up to its last line. */
  lemma {:induction false} TextsArePrefix(d: string, s: nat, allowed: nat)
    requires Padded(d) && s < |d| && allowed > 0
    ensures var last := LastStart(d, s, allowed);
      Texts(Lines(d, s, allowed)) == d[s..if KeepsLast(d, last) then |d| - 1 else last]
    decreases |d| - s
  {
    var e, last := NextStart(d, s, allowed), LastStart(d, s, allowed);
    if e == |d| {
      TextsCons(OutLine(s > 0, if KeepsLast(d, s) then d[s..|d| - 1] else "", false), []);
      assert Lines(d, s, allowed) == [OutLine(s > 0, if KeepsLast(d, s) then d[s..|d| - 1] else "", false)] + [];
    } else {
      TextsArePrefix(d, e, allowed);
      TextsCons(OutLine(s > 0, d[s..e], d[e - 1] != '\n'), Lines(d, e, allowed));
      Adjacent(d, s, e, if KeepsLast(d, last) then |d| - 1 else last);
    }
  }

  /** For the description itself. */
  lemma OutputIsPrefix(desc: string, allowed: nat)
    requires allowed > 0
    ensures Texts(Lines(desc + " ", 0, allowed)) <= desc
  {
    TextsArePrefix(desc + " ", 0, allowed);
  }

  /** Only spaces and tabs. */
  ghost predicate Invisible(d: string, from: nat, to: nat)
    requires to <= |d|
  {
    forall k | from <= k < to :: d[k] == ' ' || d[k] == '\t'
  }

  /** Everything visible is in the output if and only if the last line does not consist, behind the
      first line, of one visible character followed by blanks only. */
  lemma NothingVisibleIsLostIff(desc: string, allowed: nat)
    requires allowed > 0
    ensures var d, kept := desc + " ", Texts(Lines(desc + " ", 0, allowed));
      var last := LastStart(d, 0, allowed);
      && |kept| <= |desc|
      && (Invisible(desc, |kept|, |desc|) <==>
          !(last > 0 && d[last] != ' ' && d[last] != '\t' && Invisible(d, last + 1, |d|)))
  {
    var d := desc + " ";
    TextsArePrefix(d, 0, allowed);
    LastLineVisible(desc, LastStart(d, 0, allowed));
  }

  lemma LastLineVisible(desc: string, last: nat)
    requires last <= |desc|
    ensures var d := desc + " ";
      Invisible(desc, if KeepsLast(d, last) then |desc| else last, |desc|)
      <==> !(last > 0 && d[last] != ' ' && d[last] != '\t' && Invisible(d, last + 1, |d|))
  {
    var d := desc + " ";
    assert forall k | 0 <= k < |desc| :: desc[k] == d[k];
    if last > 0 && !KeepsLast(d, last) && !Blank(d[last]) {
      assert !Blank(desc[last]);
    }
  }

  /** Such a line is lost: with room for two characters the second line of this description never
      appears. */
  lemma OneCharacterLineIsLost(start: nat, allowed: nat)
    requires allowed > 1
    ensures Render(Lines("a\nb" + " ", 0, allowed), start) == "a\n" + Spaces(start)
  {
    var d := "a\nb ";
    assert "a\nb" + " " == d;
    LineEndIs(d, 0, 0, allowed, 1);
    assert SkipNewlines(d, 1) == 2;
    assert NextStart(d, 0, allowed) == 2;
    LineEndIs(d, 2, 2, allowed, 4);
    assert NextStart(d, 2, allowed) == 4;
    var first, second := OutLine(false, "a\n", false), OutLine(true, "", false);
    assert Lines(d, 2, allowed) == [second];
    assert d[0..2] == "a\n";
    assert Lines(d, 0, allowed) == [first] + [second];
    RenderOne(first, [second], start);
    RenderOne(second, [], start);
  }
}
