/** Removing superfluous empty lines from a list of lines, in place. */
module EmptyLines {

  predicate Empty(line: string) {
    |line| == 0
  }

  /** Each run of empty lines becomes one. */
  function Collapsed(lines: seq<string>): (r: seq<string>)
    ensures lines != [] ==> r != [] && r[0] == lines[0]
  {
    if |lines| < 2 then lines
    else if Empty(lines[0]) && Empty(lines[1]) then Collapsed(lines[1..])
    else [lines[0]] + Collapsed(lines[1..])
  }

  function WithoutLeading(lines: seq<string>): seq<string> {
    if lines != [] && Empty(lines[0]) then lines[1..] else lines
  }

  /** What the removal leaves: nothing is done to a list of fewer than two lines. */
  function Cleaned(lines: seq<string>): seq<string> {
    if |lines| < 2 then lines else WithoutLeading(Collapsed(lines))
  }

  /** The lines that are not empty, in order. */
  function Filled(lines: seq<string>): seq<string> {
    if lines == [] then [] else (if Empty(lines[0]) then [] else [lines[0]]) + Filled(lines[1..])
  }

  ghost predicate NoTwoEmpty(lines: seq<string>) {
    forall i :: 0 <= i < |lines| - 1 ==> !Empty(lines[i]) || !Empty(lines[i + 1])
  }

  lemma {:induction false} CollapsedKeeps(lines: seq<string>)
    ensures NoTwoEmpty(Collapsed(lines)) && Filled(Collapsed(lines)) == Filled(lines)
    ensures NoTwoEmpty(lines) ==> Collapsed(lines) == lines
  {
    if |lines| >= 2 {
      CollapsedKeeps(lines[1..]);
      var rest := Collapsed(lines[1..]);
      if !Empty(lines[0]) || !Empty(lines[1]) {
        assert ([lines[0]] + rest)[1..] == rest;
      }
      assert lines == [lines[0]] + lines[1..];
    }
  }

  /** No line but empty ones is lost and the order stays; no two empty lines are left together; none is left in
      front, and the removal is collapsing and dropping a leading empty line, but for a list that is one empty
      line; and a second removal changes nothing. */
  lemma CleanedKeeps(lines: seq<string>)
    ensures var r := Cleaned(lines);
      && Filled(r) == Filled(lines) && NoTwoEmpty(r)
      && (r != [] && Empty(r[0]) <==> lines == [""])
      && Cleaned(r) == r
      && (r == WithoutLeading(Collapsed(lines)) <==> lines != [""])
  {
    var all, r := Collapsed(lines), Cleaned(lines);
    CollapsedKeeps(lines);
    if |lines| >= 2 {
      assert NoTwoEmpty(r) && (r != [] ==> !Empty(r[0])) by {
        if Empty(all[0]) && |all| > 1 {
          assert !Empty(all[1]);
        }
      }
      CollapsedKeeps(r);
    }
  }

  predicate AllEmpty(lines: seq<string>) {
    forall line :: line in lines ==> Empty(line)
  }

  lemma {:induction false} RunAlone(run: seq<string>, after: seq<string>)
    requires run != [] && AllEmpty(run) && (after == [] || !Empty(after[0]))
    ensures Collapsed(run + after) == [""] + Collapsed(after)
  {
    assert run[0] in run && run[0] == "" && (run + after)[1..] == run[1..] + after;
    if |run| > 1 {
      assert run[1] in run;
      RunAlone(run[1..], after);
    } else {
      assert run[1..] + after == after;
    }
  }

  /** Each longest run of empty lines becomes one empty line, and all other lines stay. */
  lemma {:induction false} RunBecomesOne(before: seq<string>, run: seq<string>, after: seq<string>)
    requires before == [] || !Empty(before[|before| - 1])
    requires run != [] && AllEmpty(run) && (after == [] || !Empty(after[0]))
    ensures Collapsed(before + run + after) == Collapsed(before) + [""] + Collapsed(after)
  {
    if before == [] {
      RunAlone(run, after);
      assert before + run + after == run + after;
      assert Collapsed(before) + [""] + Collapsed(after) == [""] + Collapsed(after);
    } else {
      var lines := before + run + after;
      assert lines[1..] == before[1..] + run + after;
      RunBecomesOne(before[1..], run, after);
      if |before| == 1 {
        assert lines[0] == before[0] && !Empty(lines[0]);
      }
    }
  }

  /** A list of two lines or more loses, when it begins with an empty line, that run altogether, and else nothing but
      the further lines of runs. */
  lemma CleanedIs(run: seq<string>, rest: seq<string>)
    requires |run + rest| > 1 && AllEmpty(run) && (rest == [] || !Empty(rest[0]))
    ensures Cleaned(run + rest) == Collapsed(rest)
  {
    if run != [] {
      RunAlone(run, rest);
    } else {
      assert run + rest == rest;
    }
  }

  /** One round: what is collapsed reaches one line further to the front. */
  lemma OneLineBack(front: seq<string>, line: string, rest: seq<string>)
    requires rest != []
    ensures var tab := front + [line] + Collapsed(rest); var i := |front| + 1;
      front + Collapsed([line] + rest) == if Empty(tab[i]) && Empty(tab[i - 1]) then tab[..i] + tab[i + 1..] else tab
  {
  }

  /** What one round of the removal does. */
  function Round(tab: seq<string>, i: nat): seq<string>
    requires 0 < i < |tab|
  {
    var shorter := if Empty(tab[i]) && Empty(tab[i - 1]) then tab[..i] + tab[i + 1..] else tab;
    if i == 1 && Empty(shorter[i - 1]) then shorter[..i - 1] + shorter[i..] else shorter
  }

  lemma RoundCollapses(lines: seq<string>, tab: seq<string>, i: nat)
    requires 0 < i < |lines| && tab == lines[..i] + Collapsed(lines[i..])
    ensures i < |tab|
    ensures Round(tab, i) == if i == 1 then Cleaned(lines) else lines[..i - 1] + Collapsed(lines[i - 1..])
  {
    assert lines[..i] == lines[..i - 1] + [lines[i - 1]] && lines[i - 1..] == [lines[i - 1]] + lines[i..];
    OneLineBack(lines[..i - 1], lines[i - 1], lines[i..]);
    if i == 1 {
      assert lines[0..] == lines && lines[..0] + Collapsed(lines) == Collapsed(lines);
    }
  }

  class Lines {
    var tab: seq<string>

    constructor (tab: seq<string>)
      ensures this.tab == tab
    {
      this.tab := tab;
    }

    method RemoveExtraEmptyLines()
      modifies this
      ensures tab == Cleaned(old(tab))
    {
      ghost var lines := tab;
      var i := |tab| - 1;
      if i > 0 {
        assert lines == lines[..i] + Collapsed(lines[i..]);
      }
      while i > 0
        invariant |lines| > 1 ==> 0 <= i < |lines|
        invariant if i > 0 then tab == lines[..i] + Collapsed(lines[i..]) else tab == Cleaned(lines)
      {
        RoundCollapses(lines, tab, i);
        RemoveAround(i);
        i := i - 1;
      }
    }

    /** One round of the loop. */
    method RemoveAround(i: nat)
      requires 0 < i < |tab|
      modifies this
      ensures tab == Round(old(tab), i)
    {
      if Empty(tab[i]) && Empty(tab[i - 1]) {
        tab := tab[..i] + tab[i + 1..];
      }
      if i == 1 && Empty(tab[i - 1]) {
        tab := tab[..i - 1] + tab[i..];
      }
    }
  }
}
