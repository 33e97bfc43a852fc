/** Five places where `DocxTokenFiller.ts` does not do what it evidently
    means to. Each is modelled here as written, with an input that shows the
    difference; the rest of the model uses the corrected behaviour. */
module Findings {
  import opened Runs
  import opened RunCollections
  import opened FieldValues
  import opened TokenFiller

  // ---------------------------------------------------------------------------
  // WRun.split sorts its cut points as strings (line 189)
  // ---------------------------------------------------------------------------

  /** `a` comes no later than `b` in code-unit order. */
  predicate LexLeq(a: string, b: string)
    decreases |a|
  {
    a == [] || (b != [] && (a[0] < b[0] || (a[0] == b[0] && LexLeq(a[1..], b[1..]))))
  }

  function InsertByString(x: nat, sorted: seq<nat>): seq<nat>
  {
    if sorted == [] then [x]
    else if LexLeq(Decimal(x), Decimal(sorted[0])) then [x] + sorted
    else [sorted[0]] + InsertByString(x, sorted[1..])
  }

  /** `Array.prototype.sort` without a comparator: numbers are ordered by
      their decimal strings. */
  function DefaultSort(s: seq<nat>): seq<nat>
  {
    if s == [] then [] else InsertByString(s[0], DefaultSort(s[1..]))
  }

  function Reversed(s: seq<nat>): seq<nat>
  {
    if s == [] then [] else Reversed(s[1..]) + [s[0]]
  }

  /** `s.slice(0, k)` and `s.slice(k)` for `k >= 0`. */
  function SliceTo(s: string, k: nat): string
  {
    if k <= |s| then s[..k] else s
  }

  function SliceFrom(s: string, k: nat): string
  {
    if k <= |s| then s[k..] else ""
  }

  /** The loop of `WRun.split` as written: each cut point, in the given order,
      cuts the text still held by the run; the part on the right becomes a new
      run put in front of those made so far. */
  function SplitLoopAsWritten(r: Run, current: string, order: seq<nat>, made: seq<Run>): (string, seq<Run>)
    decreases |order|
  {
    if order == [] then (current, made)
    else
      var right := SliceFrom(current, order[0]);
      var run := Run(right, r.props, r.preserve || EdgeSpace(right), r.index + order[0]);
      SplitLoopAsWritten(r, SliceTo(current, order[0]), order[1..], [run] + made)
  }

  /** `WRun.split` as written: the run itself, with the text left of every
      cut, and the new runs. */
  function SplitAsWritten(r: Run, cuts: seq<nat>): (Run, seq<Run>)
  {
    var (current, made) := SplitLoopAsWritten(r, r.text, Reversed(DefaultSort(cuts)), []);
    (r.(text := current, preserve := r.preserve || EdgeSpace(current)), made)
  }

  /** Two points whose decimal strings sort the other way round. */
  lemma SortTwoByString(a: nat, b: nat)
    requires !LexLeq(Decimal(a), Decimal(b))
    ensures DefaultSort([a, b]) == [b, a]
  {
    assert [a, b][1..] == [b] && [b][1..] == [];
    assert DefaultSort([]) == [];
    assert DefaultSort([b]) == InsertByString(b, []) == [b];
    assert InsertByString(a, []) == [a];
    assert InsertByString(a, [b]) == [b] + InsertByString(a, []);
  }

  lemma ReversedTwo(a: nat, b: nat)
    ensures Reversed([a, b]) == [b, a]
  {
    assert [a, b][1..] == [b] && [b][1..] == [];
    assert Reversed([]) == [];
    assert Reversed([b]) == [b];
  }

  /** The loop as written over two points `a` then `b`. */
  lemma SplitLoopTwo(r: Run, cur: string, a: nat, b: nat)
    ensures var left := SliceTo(cur, a);
      var mid := SliceFrom(left, b);
      var right := SliceFrom(cur, a);
      SplitLoopAsWritten(r, cur, [a, b], []) ==
        (SliceTo(left, b), [Run(mid, r.props, r.preserve || EdgeSpace(mid), r.index + b),
                            Run(right, r.props, r.preserve || EdgeSpace(right), r.index + a)])
  {
    assert [a, b][1..] == [b] && [b][1..] == [];
    var left := SliceTo(cur, a);
    var mid := SliceFrom(left, b);
    var right := SliceFrom(cur, a);
    var ra := Run(right, r.props, r.preserve || EdgeSpace(right), r.index + a);
    var rb := Run(mid, r.props, r.preserve || EdgeSpace(mid), r.index + b);
    assert [ra] + [] == [ra];
    assert SplitLoopAsWritten(r, cur, [a, b], []) == SplitLoopAsWritten(r, left, [b], [ra] + []);
    assert SplitLoopAsWritten(r, left, [b], [ra]) == SplitLoopAsWritten(r, SliceTo(left, b), [], [rb] + [ra]);
    assert SplitLoopAsWritten(r, SliceTo(left, b), [], [rb] + [ra]) == (SliceTo(left, b), [rb] + [ra]);
    assert [rb] + [ra] == [rb, ra];
  }

  lemma PiecesTwo(r: Run, a: int, b: int)
    requires 0 < a < b < |r.text|
    ensures Pieces(r, 0, [a, b]) == [Fragment(r, 0, a), Fragment(r, a, b), Fragment(r, b, |r.text|)]
  {
    assert [a, b][1..] == [b] && [b][1..] == [];
    assert Pieces(r, b, []) == [Fragment(r, b, |r.text|)];
    assert Pieces(r, a, [b]) == [Fragment(r, a, b)] + Pieces(r, b, []);
  }

  /** "Dear {Name}!" cut around its token at 5 and 11, points whose string
      order differs from their numeric order: sorting "11" before "5" makes
      the run cut at 5 first, so the cut at 11 falls beyond the text
      left and yields an empty run, and the token is not separated from "!".
      The corrected split yields the token on its own. */
  lemma SplitSortAsWritten()
    ensures var r := Run("Dear {Name}!", [], false, 0);
      SplitAsWritten(r, [5, 11]).1 == [Run("", [], false, 11), Run("{Name}!", [], false, 5)] &&
      Pieces(r, 0, [5, 11]) ==
        [Run("Dear ", [], true, 0), Run("{Name}", [], false, 5), Run("!", [], false, 11)]
  {
    var r := Run("Dear {Name}!", [], false, 0);
    SortFiveEleven();
    SplitLoopTwo(r, r.text, 5, 11);
    assert SliceTo(r.text, 5) == "Dear " && SliceFrom(r.text, 5) == "{Name}!";
    assert SliceFrom("Dear ", 11) == "";
    assert !EdgeSpace("{Name}!") && !EdgeSpace("");
    DearPieces();
  }

  /** Cut points 5 and 11 are visited as 5, then 11. */
  lemma SortFiveEleven()
    ensures Reversed(DefaultSort([5, 11])) == [5, 11]
  {
    assert Decimal(5) == "5" && Decimal(11) == "11";
    assert !LexLeq("5", "11");
    SortTwoByString(5, 11);
    ReversedTwo(11, 5);
  }

  lemma DearPieces()
    ensures Pieces(Run("Dear {Name}!", [], false, 0), 0, [5, 11]) ==
      [Run("Dear ", [], true, 0), Run("{Name}", [], false, 5), Run("!", [], false, 11)]
  {
    var r := Run("Dear {Name}!", [], false, 0);
    PiecesTwo(r, 5, 11);
    assert r.text[0..5] == "Dear " && r.text[5..11] == "{Name}" && r.text[11..12] == "!";
    assert EdgeSpace("Dear ") by { assert IsSpace("Dear "[4]); }
    assert !EdgeSpace("{Name}") && !EdgeSpace("!");
  }

  // ---------------------------------------------------------------------------
  // WRunCollection.split inserts the new runs in reverse, at stale positions
  // (lines 133-138)
  // ---------------------------------------------------------------------------

  /** `list.splice(k, 0, x)`: inserts `x` at `k`, or appends it when `k` is past
      the end. */
  function InsertAt(list: seq<Run>, k: nat, x: Run): seq<Run>
  {
    if k <= |list| then list[..k] + [x] + list[k..] else list + [x]
  }

  /** The inner `forEach`: every new run is inserted at the same position. */
  function InsertEach(list: seq<Run>, k: nat, runs: seq<Run>): seq<Run>
    decreases |runs|
  {
    if runs == [] then list else InsertEach(InsertAt(list, k, runs[0]), k, runs[1..])
  }

  /** The new runs of each split run, keyed by the run's position plus one, in
      ascending key order (the order `Object.keys` gives integer keys). */
  function NewRuns(rs: seq<Run>, indexes: seq<int>, i: nat): seq<(nat, seq<Run>)>
    requires Increasing(indexes)
    decreases |rs|
  {
    if rs == [] then []
    else
      var cuts := RunCuts(rs[0], indexes);
      (if cuts == [] then [] else [(i + 1, Pieces(rs[0], 0, cuts)[1..])]) + NewRuns(rs[1..], indexes, i + 1)
  }

  /** The list after the loop of line 120: each split run keeps only the text
      before its first cut. */
  function Heads(rs: seq<Run>, indexes: seq<int>): seq<Run>
    requires Increasing(indexes)
  {
    if rs == [] then []
    else
      var cuts := RunCuts(rs[0], indexes);
      [if cuts == [] then rs[0] else Pieces(rs[0], 0, cuts)[0]] + Heads(rs[1..], indexes)
  }

  function InsertAll(list: seq<Run>, groups: seq<(nat, seq<Run>)>): seq<Run>
    decreases |groups|
  {
    if groups == [] then list else InsertAll(InsertEach(list, groups[0].0, groups[0].1), groups[1..])
  }

  /** `WRunCollection.split` as written, with the run split itself corrected. */
  function SplitListAsWritten(rs: seq<Run>, indexes: seq<int>): seq<Run>
    requires Increasing(indexes)
  {
    InsertAll(Heads(rs, indexes), NewRuns(rs, indexes, 0))
  }

  lemma InsertEachTwo(list: seq<Run>, k: nat, b: Run, c: Run)
    ensures InsertEach(list, k, [b, c]) == InsertAt(InsertAt(list, k, b), k, c)
  {
    assert [b, c][1..] == [c] && [c][1..] == [];
    assert InsertEach(InsertAt(list, k, b), k, [c]) == InsertEach(InsertAt(InsertAt(list, k, b), k, c), k, []);
  }

  /** A single run with cuts: as written, the list is its first piece with
      the other pieces inserted one by one at position 1; corrected, it is the
      pieces in order. */
  lemma SplitListOne(r: Run, indexes: seq<int>)
    requires Increasing(indexes) && RunCuts(r, indexes) != []
    ensures var p := Pieces(r, 0, RunCuts(r, indexes));
      |p| > 1 &&
      SplitListAsWritten([r], indexes) == InsertEach([p[0]], 1, p[1..]) &&
      SplitAll([r], indexes) == p
  {
    var cuts := RunCuts(r, indexes);
    var p := Pieces(r, 0, cuts);
    PiecesText(r, 0, cuts);
    assert [r][1..] == [];
    assert Heads([], indexes) == [] && NewRuns([], indexes, 1) == [];
    assert Heads([r], indexes) == [p[0]];
    assert NewRuns([r], indexes, 0) == [(1, p[1..])];
    assert [(1, p[1..])][1..] == [];
    assert InsertAll([p[0]], [(1, p[1..])]) == InsertAll(InsertEach([p[0]], 1, p[1..]), []);
  }

  /** One run "abc" cut at 1 and 2: the runs "b" and "c" are both inserted at
      position 1, so the list reads "a", "c", "b" and the collection's text
      becomes "acb". The document itself keeps "abc": each clone goes right
      after the run, and the cuts are applied from the right. The corrected
      split keeps the list in the document's order. */
  lemma SplitListAsWrittenReorders()
    ensures var rs := [Run("abc", [], false, 0)];
      Texts(SplitListAsWritten(rs, [1, 2])) == "acb" && Texts(SplitAll(rs, [1, 2])) == "abc"
  {
    var r := Run("abc", [], false, 0);
    var a, b, c := Run("a", [], false, 0), Run("b", [], false, 1), Run("c", [], false, 2);
    AbcPieces();
    SplitListOne(r, [1, 2]);
    assert [a, b, c][1..] == [b, c];
    InsertEachTwo([a], 1, b, c);
    assert InsertAt([a], 1, b) == [a, b];
    assert InsertAt([a, b], 1, c) == [a, c, b];
    Texts3(a, c, b);
    Texts3(a, b, c);
  }

  /** Two runs "Hello {Na" and "me}!" cut at 6 and 12: the new runs are keyed
      by each run's position in the list before any insertion, so "{Na" goes
      in at 1 and pushes "me}" to 2, where "!" is then inserted in front of
      it. The list reads "Hello ", "{Na", "!", "me}", whose text is
      "Hello {Na!me}"; the document and the corrected split keep
      "Hello {Name}!". */
  lemma SplitListAsWrittenShifts()
    ensures var rs := [Run("Hello {Na", [], false, 0), Run("me}!", [], false, 9)];
      Texts(SplitListAsWritten(rs, [6, 12])) == "Hello {Na!me}" &&
      Texts(SplitAll(rs, [6, 12])) == "Hello {Name}!"
  {
    var rs := [Run("Hello {Na", [], false, 0), Run("me}!", [], false, 9)];
    var h, n, m, x := Run("Hello ", [], true, 0), Run("{Na", [], false, 6), Run("me}", [], false, 9), Run("!", [], false, 12);
    ExampleCutFirst([]);
    ExampleCutSecond([]);
    ShiftsListed(rs[0], rs[1], h, n, m, x);
    ExampleCut([], []);
    ShiftsTexts(h, n, m, x);
  }

  lemma ShiftsTexts(h: Run, n: Run, m: Run, x: Run)
    requires h.text == "Hello " && n.text == "{Na" && m.text == "me}" && x.text == "!"
    ensures Texts([h, n, x, m]) == "Hello {Na!me}" && Texts([h, n, m, x]) == "Hello {Name}!"
  {
    Texts4(h, n, x, m);
    Texts4(h, n, m, x);
  }

  /** The list as written for two runs that each split in two: the first
      run's new piece goes in at 1, the second run's at 2, in front of the
      second run's head. */
  lemma ShiftsListed(a: Run, b: Run, h: Run, n: Run, m: Run, x: Run)
    requires SplitOne(a, [6, 12]) == [h, n] && SplitOne(b, [6, 12]) == [m, x]
    requires [h, n] != [a] && [m, x] != [b]
    ensures SplitListAsWritten([a, b], [6, 12]) == [h, n, x, m]
  {
    var idx := [6, 12];
    assert RunCuts(a, idx) != [] && Pieces(a, 0, RunCuts(a, idx)) == [h, n];
    assert RunCuts(b, idx) != [] && Pieces(b, 0, RunCuts(b, idx)) == [m, x];
    assert [a, b][1..] == [b] && [b][1..] == [];
    assert [h, n][1..] == [n] && [m, x][1..] == [x];
    assert Heads([], idx) == [] && NewRuns([], idx, 2) == [];
    assert Heads([b], idx) == [m];
    assert Heads([a, b], idx) == [h, m];
    assert NewRuns([b], idx, 1) == [(2, [x])];
    assert NewRuns([a, b], idx, 0) == [(1, [n]), (2, [x])];
    assert InsertEach([h, m], 1, [n]) == [h, n, m] by {
      assert [n][1..] == [];
      assert InsertAt([h, m], 1, n) == [h, n, m];
    }
    assert InsertEach([h, n, m], 2, [x]) == [h, n, x, m] by {
      assert [x][1..] == [];
      assert InsertAt([h, n, m], 2, x) == [h, n, x, m];
    }
    assert [(1, [n]), (2, [x])][1..] == [(2, [x])] && [(2, [x])][1..] == [];
    assert InsertAll([h, n, m], [(2, [x])]) == [h, n, x, m];
    assert InsertAll([h, m], [(1, [n]), (2, [x])]) == InsertAll([h, n, m], [(2, [x])]);
  }

  lemma AbcPieces()
    ensures var r := Run("abc", [], false, 0);
      RunCuts(r, [1, 2]) == [1, 2] &&
      Pieces(r, 0, [1, 2]) == [Run("a", [], false, 0), Run("b", [], false, 1), Run("c", [], false, 2)]
  {
    var r := Run("abc", [], false, 0);
    assert LocalCuts(r, [1, 2]) == [1, 2] by {
      assert [1, 2][1..] == [2] && [2][1..] == [];
    }
    PiecesTwo(r, 1, 2);
    assert r.text[0..1] == "a" && r.text[1..2] == "b" && r.text[2..3] == "c";
  }

  // ---------------------------------------------------------------------------
  // mergeReplace keeps the merged runs in the document (line 154)
  // ---------------------------------------------------------------------------

  /** The runs of the document after `mergeReplace` as written: the first run
      inside the range takes the value, and the other runs inside it stay in
      the document, since they are only looked up in the list. */
  function TreeAfterMergeAsWritten(rs: seq<Run>, s: int, e: int, v: string, found: bool): seq<Run>
  {
    if rs == [] then []
    else if Inside(rs[0], s, e) && !found then [rs[0].(text := v)] + TreeAfterMergeAsWritten(rs[1..], s, e, v, true)
    else [rs[0]] + TreeAfterMergeAsWritten(rs[1..], s, e, v, found || Inside(rs[0], s, e))
  }

  /** The runs inside the range, in list order. */
  function InsideRuns(rs: seq<Run>, s: int, e: int): seq<Run>
  {
    if rs == [] then []
    else (if Inside(rs[0], s, e) then [rs[0]] else []) + InsideRuns(rs[1..], s, e)
  }

  /** The list after `mergeReplace` as written: `this.nodes.splice(index, 1)`
      returns the removed run, which then becomes the whole list; any later
      removal finds nothing and removes that run again, keeping the same list. */
  function ListAfterMergeAsWritten(rs: seq<Run>, s: int, e: int, v: string): seq<Run>
  {
    var inside := InsideRuns(rs, s, e);
    if |inside| >= 2 then [inside[1]] else TreeAfterMergeAsWritten(rs, s, e, v, false)
  }

  /** A token spread over two runs, between two runs outside it: the
      document keeps the second run's text after the value, and the list is
      left holding that run alone; the corrected merge drops it. */
  lemma MergeAsWrittenKeepsSecond(r0: Run, r1: Run, r2: Run, r3: Run, s: int, e: int, v: string)
    requires !Inside(r0, s, e) && Inside(r1, s, e) && Inside(r2, s, e) && !Inside(r3, s, e)
    ensures TreeAfterMergeAsWritten([r0, r1, r2, r3], s, e, v, false) == [r0, r1.(text := v), r2, r3]
    ensures ListAfterMergeAsWritten([r0, r1, r2, r3], s, e, v) == [r2]
  {
    var rs := [r0, r1, r2, r3];
    assert rs[1..] == [r1, r2, r3] && [r1, r2, r3][1..] == [r2, r3] && [r2, r3][1..] == [r3] && [r3][1..] == [];
    assert TreeAfterMergeAsWritten([r3], s, e, v, true) == [r3];
    assert TreeAfterMergeAsWritten([r2, r3], s, e, v, true) == [r2, r3];
    assert TreeAfterMergeAsWritten([r1, r2, r3], s, e, v, false) == [r1.(text := v), r2, r3];
    InsideTwo(r0, r1, r2, r3, s, e);
  }

  lemma InsideTwo(r0: Run, r1: Run, r2: Run, r3: Run, s: int, e: int)
    requires !Inside(r0, s, e) && Inside(r1, s, e) && Inside(r2, s, e) && !Inside(r3, s, e)
    ensures InsideRuns([r0, r1, r2, r3], s, e) == [r1, r2]
  {
    var rs := [r0, r1, r2, r3];
    assert rs[1..] == [r1, r2, r3] && [r1, r2, r3][1..] == [r2, r3] && [r2, r3][1..] == [r3] && [r3][1..] == [];
    assert InsideRuns([r3], s, e) == [];
    assert InsideRuns([r2, r3], s, e) == [r2];
    assert InsideRuns([r1, r2, r3], s, e) == [r1, r2];
  }

  lemma Texts4(a: Run, b: Run, c: Run, d: Run)
    ensures Texts([a, b, c, d]) == a.text + b.text + c.text + d.text
  {
    assert [a, b, c, d][1..] == [b, c, d];
    Texts3(b, c, d);
  }

  /** "Hello {Name}!" held as "Hello ", "{Na", "me}", "!": the document ends up
      reading "Hello Aliceme}!" and the list holds only "me}"; the corrected
      merge gives "Hello Alice!". */
  lemma MergeAsWrittenKeepsRuns()
    ensures var rs := [Run("Hello ", [], true, 0), Run("{Na", [], false, 6),
                       Run("me}", [], false, 9), Run("!", [], false, 12)];
      Texts(TreeAfterMergeAsWritten(rs, 6, 12, "Alice", false)) == "Hello Aliceme}!" &&
      ListAfterMergeAsWritten(rs, 6, 12, "Alice") == [rs[2]] &&
      Texts(Merged(rs, 6, 12, "Alice", false)) == "Hello Alice!"
  {
    var r0, r1, r2, r3 := Run("Hello ", [], true, 0), Run("{Na", [], false, 6),
                          Run("me}", [], false, 9), Run("!", [], false, 12);
    MergeAsWrittenKeepsSecond(r0, r1, r2, r3, 6, 12, "Alice");
    MergedDropsSecond(r0, r1, r2, r3, 6, 12, "Alice");
    var a1 := r1.(text := "Alice");
    Texts4(r0, a1, r2, r3);
    Texts3(r0, a1, r3);
    assert "Hello " + "Alice" + "me}" + "!" == "Hello Aliceme}!";
    assert "Hello " + "Alice" + "!" == "Hello Alice!";
  }

  // ---------------------------------------------------------------------------
  // replace reads the paragraph's text once (line 41)
  // ---------------------------------------------------------------------------

  /** The field loop of `replace` as written: every field's token is looked up
      in the text the paragraph had before any field was filled, and the runs
      keep the offsets they had then. Cutting and merging are taken as
      intended, so that only the stale text and offsets differ from
      `FillText`. */
  function FillRunsAsWritten(rs: seq<Run>, text: string, fields: seq<Field>, item: Item,
                             useDisplayNames: bool, formatDate: Value -> string): seq<Run>
    decreases |fields|
  {
    if fields == [] then rs
    else FillRunsAsWritten(FillFieldAsWritten(rs, text, fields[0], item, useDisplayNames, formatDate),
                           text, fields[1..], item, useDisplayNames, formatDate)
  }

  /** One field as written: the runs are cut and merged at the token's place
      in `text`, whatever the runs now hold. */
  function FillFieldAsWritten(rs: seq<Run>, text: string, f: Field, item: Item,
                              useDisplayNames: bool, formatDate: Value -> string): seq<Run>
  {
    var tok := Token(Key(f, useDisplayNames));
    match FindFirst(text, tok)
    case None => rs
    case Some(i) => Merged(SplitAll(rs, [i, i + |tok|]), i, i + |tok|, FieldString(item, f, formatDate), false)
  }

  /** The loop as written over two fields. */
  lemma FillAsWrittenTwo(rs: seq<Run>, text: string, f: Field, g: Field, item: Item,
                         formatDate: Value -> string)
    ensures FillRunsAsWritten(rs, text, [f, g], item, false, formatDate) ==
      FillFieldAsWritten(FillFieldAsWritten(rs, text, f, item, false, formatDate), text, g, item, false, formatDate)
  {
    assert [f, g][1..] == [g] && [g][1..] == [];
    var once := FillFieldAsWritten(rs, text, f, item, false, formatDate);
    assert FillRunsAsWritten(once, text, [g], item, false, formatDate) ==
      FillRunsAsWritten(FillFieldAsWritten(once, text, g, item, false, formatDate), text, [], item, false, formatDate);
  }

  /** One field as written, given where its token is found. */
  lemma FillFieldAsWrittenAt(rs: seq<Run>, text: string, f: Field, item: Item,
                             formatDate: Value -> string, i: nat, e: nat, v: string)
    requires FindFirst(text, Token(Key(f, false))) == Some(i)
    requires e == i + |Token(Key(f, false))| && v == FieldString(item, f, formatDate)
    ensures FillFieldAsWritten(rs, text, f, item, false, formatDate) == Merged(SplitAll(rs, [i, e]), i, e, v, false)
  {
  }

  lemma MergedFirstOfTwo(p: Run, q: Run, s: int, e: int, v: string)
    requires Inside(p, s, e) && !Inside(q, s, e)
    ensures Merged([p, q], s, e, v, false) == [p.(text := v), q]
  {
    assert [p, q][1..] == [q] && [q][1..] == [];
    assert Merged([q], s, e, v, true) == [q] + Merged([], s, e, v, true);
  }

  lemma MergedLastTwoOfThree(p: Run, q: Run, u: Run, s: int, e: int, v: string)
    requires !Inside(p, s, e) && Inside(q, s, e) && Inside(u, s, e)
    ensures Merged([p, q, u], s, e, v, false) == [p, q.(text := v)]
  {
    assert [p, q, u][1..] == [q, u] && [q, u][1..] == [u] && [u][1..] == [];
    assert Merged([u], s, e, v, true) == [] + Merged([], s, e, v, true);
    assert Merged([q, u], s, e, v, false) == [q.(text := v)] + Merged([u], s, e, v, true);
  }

  lemma FindAB()
    ensures FindFirst("{A}{B}", "{A}") == Some(0)
    ensures FindFirst("{A}{B}", "{B}") == Some(3)
  {
    var text := "{A}{B}";
    assert MatchAt(text, "{A}", 0);
    assert MatchAt(text, "{B}", 3);
    forall j: nat | j < 3 ensures !MatchAt(text, "{B}", j) {
      assert text[j..j + 3][1] == text[j + 1] != 'B';
    }
    FindFirstAt(text, "{A}", 0);
    FindFirstAt(text, "{B}", 3);
  }

  lemma FindBAfterA()
    ensures FindFirst("xxxxx{B}", "{B}") == Some(5)
  {
    var text := "xxxxx{B}";
    assert MatchAt(text, "{B}", 5);
    forall j: nat | j < 5 ensures !MatchAt(text, "{B}", j) {
      assert text[j..j + 3][0] == text[j] != '{';
    }
    FindFirstAt(text, "{B}", 5);
  }

  /** A's step as written: the run "{A}{B}" is cut at 3 and its first part
      takes the value. */
  lemma StaleStepA()
    ensures Merged(SplitAll([Run("{A}{B}", [], false, 0)], [0, 3]), 0, 3, "xxxxx", false) ==
            [Run("xxxxx", [], false, 0), Run("{B}", [], false, 3)]
  {
    var r := Run("{A}{B}", [], false, 0);
    assert LocalCuts(r, [0, 3]) == [3] by {
      assert [0, 3][1..] == [3] && [3][1..] == [];
    }
    SplitAllSingle(r, [0, 3]);
    SplitOneAt(r, [0, 3], 3);
    assert r.text[0..3] == "{A}" && r.text[3..6] == "{B}";
    MergedFirstOfTwo(Fragment(r, 0, 3), Fragment(r, 3, 6), 0, 3, "xxxxx");
  }

  /** B's step as written: the cut at 3 falls inside "xxxxx", and "xx" and
      "{B}" both lie in [3, 6). */
  lemma StaleStepB()
    ensures Merged(SplitAll([Run("xxxxx", [], false, 0), Run("{B}", [], false, 3)], [3, 6]), 3, 6, "bee", false) ==
            [Run("xxx", [], false, 0), Run("bee", [], false, 3)]
  {
    var xa, rb := Run("xxxxx", [], false, 0), Run("{B}", [], false, 3);
    assert LocalCuts(xa, [3, 6]) == [3] by {
      assert [3, 6][1..] == [6] && [6][1..] == [];
    }
    assert LocalCuts(rb, [3, 6]) == [] by {
      assert [3, 6][1..] == [6] && [6][1..] == [];
    }
    SplitAllPair(xa, rb, [3, 6]);
    SplitOneAt(xa, [3, 6], 3);
    SplitOneNone(rb, [3, 6]);
    var x3, x2 := Run("xxx", [], false, 0), Run("xx", [], false, 3);
    XxxxxFragments();
    assert [x3, x2] + [rb] == [x3, x2, rb];
    MergedLastTwoOfThree(x3, x2, rb, 3, 6, "bee");
  }

  lemma XxxxxFragments()
    ensures var xa := Run("xxxxx", [], false, 0);
      Fragment(xa, 0, 3) == Run("xxx", [], false, 0) && Fragment(xa, 3, 5) == Run("xx", [], false, 3)
  {
    var xa := Run("xxxxx", [], false, 0);
    assert xa.text[0..3] == "xxx" && xa.text[3..5] == "xx";
  }

  lemma FieldsAB(formatDate: Value -> string)
    ensures var item := map["A" := Str("xxxxx"), "B" := Str("bee")];
      FieldString(item, Field("A", "A", "Text"), formatDate) == "xxxxx" &&
      FieldString(item, Field("B", "B", "Text"), formatDate) == "bee" &&
      Token(Key(Field("A", "A", "Text"), false)) == "{A}" &&
      Token(Key(Field("B", "B", "Text"), false)) == "{B}"
  {
  }

  /** "{A}{B}" with A = "xxxxx" and B = "bee": once A is filled, the run
      holding "xxxxx" still starts at 0 and now reaches past 3, so the cut for
      B at 3 falls inside the value, and "xx" is taken for B's token. The runs
      read "xxx", "bee" where "xxxxxbee" is meant. This takes the merge as
      intended; with the merge of line 154 as written as well, the run "{B}"
      stays in the document, which reads "xxxbee{B}". */
  lemma FillAsWrittenUsesStaleText(formatDate: Value -> string)
    ensures var fields := [Field("A", "A", "Text"), Field("B", "B", "Text")];
      var item := map["A" := Str("xxxxx"), "B" := Str("bee")];
      Texts(FillRunsAsWritten([Run("{A}{B}", [], false, 0)], "{A}{B}", fields, item, false, formatDate)) == "xxxbee" &&
      FillText("{A}{B}", fields, item, false, formatDate) == "xxxxxbee"
  {
    StaleAsWritten(formatDate);
    StaleCorrected(formatDate);
  }

  lemma StaleAsWritten(formatDate: Value -> string)
    ensures var fields := [Field("A", "A", "Text"), Field("B", "B", "Text")];
      var item := map["A" := Str("xxxxx"), "B" := Str("bee")];
      Texts(FillRunsAsWritten([Run("{A}{B}", [], false, 0)], "{A}{B}", fields, item, false, formatDate)) == "xxxbee"
  {
    FieldsAB(formatDate);
    StaleRuns(Field("A", "A", "Text"), Field("B", "B", "Text"), map["A" := Str("xxxxx"), "B" := Str("bee")], formatDate);
  }

  lemma StaleRuns(fA: Field, fB: Field, item: Item, formatDate: Value -> string)
    requires Token(Key(fA, false)) == "{A}" && Token(Key(fB, false)) == "{B}"
    requires FieldString(item, fA, formatDate) == "xxxxx" && FieldString(item, fB, formatDate) == "bee"
    ensures Texts(FillRunsAsWritten([Run("{A}{B}", [], false, 0)], "{A}{B}", [fA, fB], item, false, formatDate)) == "xxxbee"
  {
    FillAsWrittenTwo([Run("{A}{B}", [], false, 0)], "{A}{B}", fA, fB, item, formatDate);
    StaleFields(fA, fB, item, formatDate);
    TextsXxxBee();
  }

  lemma TextsXxxBee()
    ensures Texts([Run("xxx", [], false, 0), Run("bee", [], false, 3)]) == "xxxbee"
  {
    var afterB := [Run("xxx", [], false, 0), Run("bee", [], false, 3)];
    TextsCons([afterB[1]], afterB[1], []);
    TextsCons(afterB, afterB[0], [afterB[1]]);
    assert Texts(afterB) == "xxx" + "bee";
  }

  lemma StaleFields(fA: Field, fB: Field, item: Item, formatDate: Value -> string)
    requires Token(Key(fA, false)) == "{A}" && Token(Key(fB, false)) == "{B}"
    requires FieldString(item, fA, formatDate) == "xxxxx" && FieldString(item, fB, formatDate) == "bee"
    ensures var text := "{A}{B}";
      var afterA := [Run("xxxxx", [], false, 0), Run("{B}", [], false, 3)];
      FillFieldAsWritten([Run(text, [], false, 0)], text, fA, item, false, formatDate) == afterA &&
      FillFieldAsWritten(afterA, text, fB, item, false, formatDate) ==
        [Run("xxx", [], false, 0), Run("bee", [], false, 3)]
  {
    var text := "{A}{B}";
    FindAB();
    var afterA := [Run("xxxxx", [], false, 0), Run("{B}", [], false, 3)];
    FillFieldAsWrittenAt([Run(text, [], false, 0)], text, fA, item, formatDate, 0, 3, "xxxxx");
    StaleStepA();
    FillFieldAsWrittenAt(afterA, text, fB, item, formatDate, 3, 6, "bee");
    StaleStepB();
  }

  /** The corrected loop looks B up in the text A left. */
  lemma StaleCorrected(formatDate: Value -> string)
    ensures var fields := [Field("A", "A", "Text"), Field("B", "B", "Text")];
      var item := map["A" := Str("xxxxx"), "B" := Str("bee")];
      FillText("{A}{B}", fields, item, false, formatDate) == "xxxxxbee"
  {
    var fA, fB := Field("A", "A", "Text"), Field("B", "B", "Text");
    FieldsAB(formatDate);
    StaleText(fA, fB, map["A" := Str("xxxxx"), "B" := Str("bee")], formatDate);
  }

  lemma StaleText(fA: Field, fB: Field, item: Item, formatDate: Value -> string)
    requires Token(Key(fA, false)) == "{A}" && Token(Key(fB, false)) == "{B}"
    requires FieldString(item, fA, formatDate) == "xxxxx" && FieldString(item, fB, formatDate) == "bee"
    ensures FillText("{A}{B}", [fA, fB], item, false, formatDate) == "xxxxxbee"
  {
    SubstituteA(fA, item, formatDate);
    SubstituteB(fB, item, formatDate);
    assert [fA, fB][1..] == [fB];
    FillTextSingle("xxxxx{B}", fB, item, formatDate);
  }

  lemma SubstituteA(fA: Field, item: Item, formatDate: Value -> string)
    requires Token(Key(fA, false)) == "{A}" && FieldString(item, fA, formatDate) == "xxxxx"
    ensures Substitute("{A}{B}", fA, item, false, formatDate) == "xxxxx{B}"
  {
    var text := "{A}{B}";
    FindAB();
    SubstituteIn(text, fA, item, formatDate, 0, "xxxxx");
    assert text[..0] + "xxxxx" + text[3..] == "xxxxx{B}";
  }

  lemma SubstituteB(fB: Field, item: Item, formatDate: Value -> string)
    requires Token(Key(fB, false)) == "{B}" && FieldString(item, fB, formatDate) == "bee"
    ensures Substitute("xxxxx{B}", fB, item, false, formatDate) == "xxxxxbee"
  {
    FindBAfterA();
    SubstituteIn("xxxxx{B}", fB, item, formatDate, 5, "bee");
    assert "xxxxx{B}"[..5] + "bee" + "xxxxx{B}"[8..] == "xxxxxbee";
  }

  /** Substitution at a known first occurrence. */
  lemma SubstituteIn(text: string, f: Field, item: Item, formatDate: Value -> string, i: nat, v: string)
    requires FindFirst(text, Token(Key(f, false))) == Some(i) && FieldString(item, f, formatDate) == v
    ensures i + |Token(Key(f, false))| <= |text|
    ensures Substitute(text, f, item, false, formatDate) == text[..i] + v + text[i + |Token(Key(f, false))|..]
  {
    SubstituteAt(text, f, item, false, formatDate, i);
  }
}
