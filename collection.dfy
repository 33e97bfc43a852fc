/** The runs of one paragraph-like parent, with their offsets in the
    paragraph's text (class `WRunCollection`). The in-memory list `nodes` stands
    for the parent's run children in the tree: the model keeps the two equal, as
    the source intends (see `MergeReplace`). */
module RunCollections {
  import opened Runs

  /** The parent element of a group of runs; `id` stands for its identity.
      `children` is the parent's content as read when a collection is built,
      used only by the constructor when no run elements are given: it is a
      snapshot, and the collection's `nodes` stand for the runs after that. */
  datatype ParentNode = ParentNode(id: nat, children: seq<Node>)

  /** Each run's offset is the total length of the runs before it, counting
      from `base`. */
  predicate IndexedFrom(rs: seq<Run>, base: int)
  {
    rs == [] || (rs[0].index == base && IndexedFrom(rs[1..], base + |rs[0].text|))
  }

  /** The same runs with their offsets recomputed from `base`. */
  function Reindexed(rs: seq<Run>, base: int): (out: seq<Run>)
    ensures |out| == |rs|
  {
    if rs == [] then []
    else [rs[0].(index := base)] + Reindexed(rs[1..], base + |rs[0].text|)
  }

  /** Renumbering keeps every run's text and properties and makes the offsets
      consistent again. */
  lemma {:induction false} ReindexedFacts(rs: seq<Run>, base: int)
    ensures IndexedFrom(Reindexed(rs, base), base)
    ensures Texts(Reindexed(rs, base)) == Texts(rs)
    ensures forall i :: 0 <= i < |rs| ==>
              Reindexed(rs, base)[i] == rs[i].(index := Reindexed(rs, base)[i].index)
  {
    if rs != [] {
      var out := Reindexed(rs, base);
      ReindexedFacts(rs[1..], base + |rs[0].text|);
      assert out[1..] == Reindexed(rs[1..], base + |rs[0].text|);
      forall i | 0 < i < |rs| ensures out[i] == rs[i].(index := out[i].index) {
        assert out[i] == out[1..][i - 1] && rs[i] == rs[1..][i - 1];
      }
    }
  }

  /** An offset computed by accumulation is the length of the text before the
      run; the last run ends where the paragraph's text ends. */
  lemma {:induction false} IndexedAt(rs: seq<Run>, base: int, i: nat)
    requires IndexedFrom(rs, base) && i < |rs|
    ensures rs[i].index == base + |Texts(rs[..i])|
    ensures rs[i].index + |rs[i].text| + |Texts(rs[i + 1..])| == base + |Texts(rs)|
  {
    if i == 0 {
      assert rs[..0] == [];
      assert rs[1..] == rs[i + 1..];
    } else {
      IndexedAt(rs[1..], base + |rs[0].text|, i - 1);
      assert rs[..i] == [rs[0]] + rs[1..][..i - 1];
      TextsAppend([rs[0]], rs[1..][..i - 1]);
      assert rs[1..][i..] == rs[i + 1..];
    }
  }

  lemma {:induction false} IndexedAppend(a: seq<Run>, b: seq<Run>, base: int)
    requires IndexedFrom(a, base) && IndexedFrom(b, base + |Texts(a)|)
    ensures IndexedFrom(a + b, base)
  {
    if a == [] {
      assert a + b == b;
    } else {
      IndexedAppend(a[1..], b, base + |a[0].text|);
      assert (a + b)[1..] == a[1..] + b;
    }
  }

  lemma {:induction false} PiecesIndexed(r: Run, from: int, cuts: seq<int>)
    requires ValidCuts(cuts, from, |r.text|)
    ensures IndexedFrom(Pieces(r, from, cuts), r.index + from)
    decreases |cuts|
  {
    if cuts != [] {
      PiecesIndexed(r, cuts[0], cuts[1..]);
      assert Pieces(r, from, cuts)[1..] == Pieces(r, cuts[0], cuts[1..]);
    } else {
      assert Pieces(r, from, cuts)[1..] == [];
    }
  }

  // ---------------------------------------------------------------------------
  // Splitting a collection

  /** Strictly inside the run: a cut there separates two non-empty parts. */
  predicate StrictlyInside(r: Run, x: int)
  {
    r.index < x < r.index + |r.text|
  }

  /** The points of `indexes` strictly inside `r`, in run coordinates. */
  function LocalCuts(r: Run, indexes: seq<int>): (cuts: seq<int>)
    ensures Within(cuts, 0, |r.text|)
  {
    if indexes == [] then []
    else if StrictlyInside(r, indexes[0]) then [indexes[0] - r.index] + LocalCuts(r, indexes[1..])
    else LocalCuts(r, indexes[1..])
  }

  /** Every cut comes from a point of `indexes`. */
  lemma {:induction false} LocalCutsFrom(r: Run, indexes: seq<int>, c: int)
    requires c in LocalCuts(r, indexes)
    ensures c + r.index in indexes
  {
    if indexes != [] && c != indexes[0] - r.index {
      LocalCutsFrom(r, indexes[1..], c);
    }
  }

  /** Every point strictly inside the run becomes a cut. */
  lemma {:induction false} LocalCutsHas(r: Run, indexes: seq<int>, x: int)
    requires x in indexes && StrictlyInside(r, x)
    ensures x - r.index in LocalCuts(r, indexes)
  {
    if x != indexes[0] {
      LocalCutsHas(r, indexes[1..], x);
    }
  }

  /** Points given in ascending order stay in ascending order. */
  lemma {:induction false} LocalCutsIncreasing(r: Run, indexes: seq<int>)
    requires Increasing(indexes)
    ensures Increasing(LocalCuts(r, indexes))
  {
    if indexes != [] {
      LocalCutsIncreasing(r, indexes[1..]);
      var rest := LocalCuts(r, indexes[1..]);
      forall c | c in rest ensures indexes[0] - r.index < c {
        LocalCutsFrom(r, indexes[1..], c);
        var k :| 0 <= k < |indexes[1..]| && indexes[1..][k] == c + r.index;
        assert indexes[k + 1] == c + r.index;
      }
      if StrictlyInside(r, indexes[0]) {
        var cuts := LocalCuts(r, indexes);
        assert cuts == [indexes[0] - r.index] + rest;
        forall i, j | 0 <= i < j < |cuts| ensures cuts[i] < cuts[j] {
          assert cuts[j] == rest[j - 1];
          if i > 0 {
            assert cuts[i] == rest[i - 1];
          } else {
            assert rest[j - 1] in rest;
          }
        }
      }
    }
  }

  /** The cuts a run receives from points given in ascending order. */
  function RunCuts(r: Run, indexes: seq<int>): (cuts: seq<int>)
    requires Increasing(indexes)
    ensures ValidCuts(cuts, 0, |r.text|) && cuts == LocalCuts(r, indexes)
  {
    LocalCutsIncreasing(r, indexes);
    LocalCuts(r, indexes)
  }

  /** One run after the collection's split: unchanged when no point falls
      strictly inside it, otherwise its pieces. */
  function SplitOne(r: Run, indexes: seq<int>): seq<Run>
    requires Increasing(indexes)
  {
    var cuts := RunCuts(r, indexes);
    if cuts == [] then [r] else Pieces(r, 0, cuts)
  }

  /** `WRunCollection.split` as intended: every run is replaced in place by the
      runs its split yields, in ascending order. */
  function SplitAll(rs: seq<Run>, indexes: seq<int>): seq<Run>
    requires Increasing(indexes)
  {
    if rs == [] then [] else SplitOne(rs[0], indexes) + SplitAll(rs[1..], indexes)
  }

  lemma SplitOneFacts(r: Run, indexes: seq<int>)
    requires Increasing(indexes)
    ensures Texts(SplitOne(r, indexes)) == r.text
    ensures IndexedFrom(SplitOne(r, indexes), r.index)
  {
    var cuts := RunCuts(r, indexes);
    if cuts == [] {
      assert [r][1..] == [];
    } else {
      PiecesText(r, 0, cuts);
      PiecesIndexed(r, 0, cuts);
    }
  }

  /** Splitting never changes the paragraph's text and keeps the offsets
      consistent. */
  lemma {:induction false} SplitAllPreserves(rs: seq<Run>, indexes: seq<int>, base: int)
    requires Increasing(indexes) && IndexedFrom(rs, base)
    ensures Texts(SplitAll(rs, indexes)) == Texts(rs)
    ensures IndexedFrom(SplitAll(rs, indexes), base)
  {
    if rs != [] {
      SplitAllPreserves(rs[1..], indexes, base + |rs[0].text|);
      SplitOneFacts(rs[0], indexes);
      TextsAppend(SplitOne(rs[0], indexes), SplitAll(rs[1..], indexes));
      IndexedAppend(SplitOne(rs[0], indexes), SplitAll(rs[1..], indexes), base);
    }
  }

  /** One step of the loop of `RunCollection.Split`. */
  lemma SplitAllStep(runs: seq<Run>, i: nat, indexes: seq<int>, done: seq<Run>, pieces: seq<Run>)
    requires Increasing(indexes) && i < |runs| && pieces == SplitOne(runs[i], indexes)
    requires done + SplitAll(runs[i..], indexes) == SplitAll(runs, indexes)
    ensures (done + pieces) + SplitAll(runs[i + 1..], indexes) == SplitAll(runs, indexes)
  {
    assert runs[i..][0] == runs[i] && runs[i..][1..] == runs[i + 1..];
    var later := SplitAll(runs[i + 1..], indexes);
    assert SplitAll(runs[i..], indexes) == pieces + later;
    assert done + (pieces + later) == (done + pieces) + later;
  }

  /** No run has `x` strictly inside it: `x` is at a run boundary. */
  predicate Aligned(rs: seq<Run>, x: int)
  {
    forall i :: 0 <= i < |rs| ==> !StrictlyInside(rs[i], x)
  }

  lemma {:induction false} PiecesAligned(r: Run, from: int, cuts: seq<int>, y: int)
    requires ValidCuts(cuts, from, |r.text|)
    requires y <= from || y >= |r.text| || y in cuts
    ensures Aligned(Pieces(r, from, cuts), r.index + y)
    decreases |cuts|
  {
    var ps := Pieces(r, from, cuts);
    if cuts != [] {
      var c := cuts[0];
      assert y <= from || y >= c by {
        if y in cuts {
          var k :| 0 <= k < |cuts| && cuts[k] == y;
          assert k == 0 || c < cuts[k];
        }
      }
      assert y <= c || y >= |r.text| || y in cuts[1..] by {
        if y in cuts && y != c {
          var k :| 0 <= k < |cuts| && cuts[k] == y;
          assert cuts[1..][k - 1] == y;
        }
      }
      PiecesAligned(r, c, cuts[1..], y);
      assert ps[1..] == Pieces(r, c, cuts[1..]);
      forall i | 0 <= i < |ps| ensures !StrictlyInside(ps[i], r.index + y) {
        if i > 0 {
          assert ps[i] == ps[1..][i - 1];
        }
      }
    }
  }

  lemma SplitOneAligned(r: Run, indexes: seq<int>, x: int)
    requires Increasing(indexes) && x in indexes
    ensures Aligned(SplitOne(r, indexes), x)
  {
    var cuts := RunCuts(r, indexes);
    if StrictlyInside(r, x) {
      LocalCutsHas(r, indexes, x);
    }
    if cuts != [] {
      PiecesAligned(r, 0, cuts, x - r.index);
    }
  }

  /** After the split every point of `indexes` lies on a run boundary. */
  lemma {:induction false} SplitAllAligns(rs: seq<Run>, indexes: seq<int>, x: int)
    requires Increasing(indexes) && x in indexes
    ensures Aligned(SplitAll(rs, indexes), x)
  {
    if rs != [] {
      SplitOneAligned(rs[0], indexes, x);
      SplitAllAligns(rs[1..], indexes, x);
    }
  }

  /** Points already on run boundaries (or outside the text) change nothing. */
  lemma {:induction false} SplitAllAtBoundaries(rs: seq<Run>, indexes: seq<int>)
    requires Increasing(indexes)
    requires forall x :: x in indexes ==> Aligned(rs, x)
    ensures SplitAll(rs, indexes) == rs
  {
    if rs != [] {
      forall x | x in indexes ensures Aligned(rs[1..], x) {
        assert forall i :: 0 <= i < |rs[1..]| ==> rs[1..][i] == rs[i + 1];
      }
      SplitAllAtBoundaries(rs[1..], indexes);
      var cuts := RunCuts(rs[0], indexes);
      if cuts != [] {
        LocalCutsFrom(rs[0], indexes, cuts[0]);
        assert false;
      }
      assert rs == [rs[0]] + rs[1..];
    }
  }

  /** Splitting twice at the same points is splitting once. */
  lemma SplitAllIdempotent(rs: seq<Run>, indexes: seq<int>)
    requires Increasing(indexes)
    ensures SplitAll(SplitAll(rs, indexes), indexes) == SplitAll(rs, indexes)
  {
    forall x | x in indexes ensures Aligned(SplitAll(rs, indexes), x) {
      SplitAllAligns(rs, indexes, x);
    }
    SplitAllAtBoundaries(SplitAll(rs, indexes), indexes);
  }

  /** Splitting keeps the formatting of every character, and every run it
      yields carries the formatting of a run that was there before. */
  lemma {:induction false} SplitAllStyled(rs: seq<Run>, indexes: seq<int>)
    requires Increasing(indexes)
    ensures Styled(SplitAll(rs, indexes)) == Styled(rs)
    ensures forall x :: x in SplitAll(rs, indexes) ==> exists j :: 0 <= j < |rs| && rs[j].props == x.props
  {
    if rs != [] {
      var r := rs[0];
      var one, rest := SplitOne(r, indexes), SplitAll(rs[1..], indexes);
      SplitAllStyled(rs[1..], indexes);
      var cuts := RunCuts(r, indexes);
      assert Styled(one) == Paint(r.text, r.props) && forall x :: x in one ==> x.props == r.props by {
        if cuts == [] {
          assert [r][1..] == [];
        } else {
          PiecesStyled(r, 0, cuts);
          PiecesProps(r, 0, cuts);
          assert r.text[0..] == r.text;
        }
      }
      StyledAppend(one, rest);
      forall x: Run | x in one + rest ensures exists j :: 0 <= j < |rs| && rs[j].props == x.props {
        if x in one {
          assert rs[0].props == x.props;
        } else {
          var j :| 0 <= j < |rs[1..]| && rs[1..][j].props == x.props;
          assert rs[j + 1] == rs[1..][j];
        }
      }
    }
  }

  // ---------------------------------------------------------------------------
  // Merging the runs of a range

  /** The selection of `mergeReplace`: the run lies entirely within [s, e). */
  predicate Inside(r: Run, s: int, e: int)
  {
    s <= r.index && r.index + |r.text| <= e
  }

  predicate HasInside(rs: seq<Run>, s: int, e: int)
  {
    exists i :: 0 <= i < |rs| && Inside(rs[i], s, e)
  }

  /** The first selected run takes the text `v`; the other selected runs are
      dropped; every other run stays as it is. `found` says whether the first
      selected run has already been passed. */
  function Merged(rs: seq<Run>, s: int, e: int, v: string, found: bool): seq<Run>
  {
    if rs == [] then []
    else if Inside(rs[0], s, e) then
      (if found then [] else [rs[0].(text := v)]) + Merged(rs[1..], s, e, v, true)
    else [rs[0]] + Merged(rs[1..], s, e, v, found)
  }

  /** The shape of a merge: the runs before the first selected one, that run
      holding `v`, then the rest without the selected runs. */
  lemma {:induction false} MergedShape(rs: seq<Run>, s: int, e: int, v: string, i: nat)
    requires i < |rs| && Inside(rs[i], s, e)
    requires forall j :: 0 <= j < i ==> !Inside(rs[j], s, e)
    ensures Merged(rs, s, e, v, false) ==
              rs[..i] + [rs[i].(text := v)] + Merged(rs[i + 1..], s, e, v, true)
  {
    if i == 0 {
      assert rs[..0] == [];
      assert rs[1..] == rs[i + 1..];
    } else {
      MergedShape(rs[1..], s, e, v, i - 1);
      assert rs[1..][..i - 1] == rs[1..i];
      assert rs[1..][i..] == rs[i + 1..];
      assert rs[..i] == [rs[0]] + rs[1..i];
    }
  }

  /** Once the first selected run is passed, exactly the unselected runs
      remain. */
  lemma {:induction false} MergedDropsSelected(rs: seq<Run>, s: int, e: int, v: string, r: Run)
    ensures r in Merged(rs, s, e, v, true) <==> r in rs && !Inside(r, s, e)
  {
    if rs != [] {
      MergedDropsSelected(rs[1..], s, e, v, r);
      assert r in rs <==> r == rs[0] || r in rs[1..];
    }
  }

  function Clamp(x: int, n: nat): nat
  {
    if x < 0 then 0 else if x > n then n else x
  }

  /** Offsets only grow along an indexed list: a list starting past `e` has no
      run inside [s, e). */
  lemma {:induction false} NoneInsideAfter(rs: seq<Run>, base: int, s: int, e: int)
    requires IndexedFrom(rs, base) && (base > e || (base == e && rs != [] && |rs[0].text| > 0))
    ensures !HasInside(rs, s, e)
  {
    if rs != [] {
      var b := base + |rs[0].text|;
      if rs[1..] != [] {
        NoneInsideAfter(rs[1..], b, s, e);
      }
      forall i | 0 <= i < |rs| ensures !Inside(rs[i], s, e) {
        if i > 0 {
          assert rs[i] == rs[1..][i - 1];
        }
      }
    }
  }

  /** The text of a merge over boundary-aligned points, for a list that starts
      at `base`: the part before `s`, then `v` (if the first selected run is
      still ahead), then the part from `e` on. */
  lemma {:induction false} MergedTextFrom(rs: seq<Run>, base: int, s: int, e: int, v: string, found: bool)
    requires IndexedFrom(rs, base) && s < e && Aligned(rs, s) && Aligned(rs, e)
    ensures MergedTextClaim(rs, base, s, e, v, found)
    decreases |rs|
  {
    if rs != [] {
      var rest := rs[1..];
      assert Aligned(rest, s) && Aligned(rest, e) by {
        forall i | 0 <= i < |rest| ensures rest[i] == rs[i + 1] { }
      }
      MergedTextFrom(rest, base + |rs[0].text|, s, e, v, Inside(rs[0], s, e) || found);
      HasInsideCons(rs, s, e);
      MergedTextStep(rs, base, s, e, v, found);
    }
  }

  /** One step of the loop of `RunCollection.MergeReplace`. */
  lemma MergedStep(runs: seq<Run>, i: nat, s: int, e: int, v: string, found: bool,
                   done: seq<Run>, kept: seq<Run>)
    requires i < |runs| && found == HasInside(runs[..i], s, e)
    requires kept == if !Inside(runs[i], s, e) then [runs[i]] else if found then [] else [runs[i].(text := v)]
    requires done + Merged(runs[i..], s, e, v, found) == Merged(runs, s, e, v, false)
    ensures (done + kept) + Merged(runs[i + 1..], s, e, v, found || Inside(runs[i], s, e)) ==
            Merged(runs, s, e, v, false)
    ensures found || Inside(runs[i], s, e) == HasInside(runs[..i + 1], s, e)
  {
    assert runs[i..][0] == runs[i] && runs[i..][1..] == runs[i + 1..];
    var later := Merged(runs[i + 1..], s, e, v, found || Inside(runs[i], s, e));
    assert Merged(runs[i..], s, e, v, found) == kept + later;
    assert done + (kept + later) == (done + kept) + later;
    assert runs[..i + 1] == runs[..i] + [runs[i]];
    HasInsideSnoc(runs[..i], runs[i], s, e);
  }

  lemma HasInsideSnoc(rs: seq<Run>, r: Run, s: int, e: int)
    ensures HasInside(rs + [r], s, e) <==> HasInside(rs, s, e) || Inside(r, s, e)
  {
    if HasInside(rs, s, e) {
      var i :| 0 <= i < |rs| && Inside(rs[i], s, e);
      assert (rs + [r])[i] == rs[i];
    }
    if Inside(r, s, e) {
      assert (rs + [r])[|rs|] == r;
    }
  }

  lemma HasInsideCons(rs: seq<Run>, s: int, e: int)
    requires rs != []
    ensures HasInside(rs, s, e) <==> Inside(rs[0], s, e) || HasInside(rs[1..], s, e)
  {
    if HasInside(rs[1..], s, e) {
      var i :| 0 <= i < |rs[1..]| && Inside(rs[1..][i], s, e);
      assert rs[i + 1] == rs[1..][i];
    }
    if HasInside(rs, s, e) && !Inside(rs[0], s, e) {
      var i :| 0 <= i < |rs| && Inside(rs[i], s, e);
      assert rs[1..][i - 1] == rs[i];
    }
  }

  /** The text claim of `MergedTextFrom` for a list with head `rs[0]`, given
      the claim for its tail. */
  ghost predicate MergedTextClaim(rs: seq<Run>, base: int, s: int, e: int, v: string, found: bool)
  {
    var t := Texts(rs);
    Texts(Merged(rs, s, e, v, found)) ==
      t[..Clamp(s - base, |t|)] + (if !found && HasInside(rs, s, e) then v else "") + t[Clamp(e - base, |t|)..]
  }

  lemma MergedTextStep(rs: seq<Run>, base: int, s: int, e: int, v: string, found: bool)
    requires rs != [] && IndexedFrom(rs, base) && s < e
    requires !StrictlyInside(rs[0], s) && !StrictlyInside(rs[0], e)
    requires HasInside(rs, s, e) <==> Inside(rs[0], s, e) || HasInside(rs[1..], s, e)
    requires MergedTextClaim(rs[1..], base + |rs[0].text|, s, e, v, Inside(rs[0], s, e) || found)
    ensures MergedTextClaim(rs, base, s, e, v, found)
  {
    var r := rs[0];
    if Inside(r, s, e) {
      MergedStepInside(rs, base, s, e, v, found);
    } else if base < s {
      MergedStepBefore(rs, base, s, e, v, found);
    } else {
      if rs[1..] != [] {
        NoneInsideAfter(rs[1..], base + |r.text|, s, e);
      }
      MergedStepAfter(rs, base, s, e, v, found);
    }
  }

  lemma MergedStepInside(rs: seq<Run>, base: int, s: int, e: int, v: string, found: bool)
    requires rs != [] && rs[0].index == base && Inside(rs[0], s, e) && HasInside(rs, s, e)
    requires MergedTextClaim(rs[1..], base + |rs[0].text|, s, e, v, true)
    ensures MergedTextClaim(rs, base, s, e, v, found)
  {
    var r, rest := rs[0], rs[1..];
    var L := |r.text|;
    var t' := Texts(rest);
    var t := Texts(rs);
    TextsCons(rs, r, rest);
    var lo', hi' := Clamp(s - base - L, |t'|), Clamp(e - base - L, |t'|);
    var lo, hi := Clamp(s - base, |t|), Clamp(e - base, |t|);
    ClampShift(L, e - base, |t'|);
    assert lo == 0 && lo' == 0 && hi == L + hi';
    MergedTextClaimElim(rest, base + L, s, e, v, true, t', lo', hi', "");
    var mid := if found then "" else v;
    MergedInsideTexts(rs, s, e, v, found);
    InsideSplice(r.text, t', t, mid, Texts(Merged(rs, s, e, v, found)), lo', hi', lo, hi);
    MergedTextClaimIntro(rs, base, s, e, v, found, t, lo, hi, mid);
  }

  /** The text after merging a first run inside the range, as a splice. */
  lemma InsideSplice(x: string, t': string, t: string, mid: string, merged: string,
                     lo': nat, hi': nat, lo: nat, hi: nat)
    requires t == x + t' && lo == 0 && lo' == 0 && hi' <= |t'| && hi == |x| + hi'
    requires merged == mid + (t'[..lo'] + "" + t'[hi'..])
    ensures merged == t[..lo] + mid + t[hi..]
  {
    DropConcat(x, t', hi);
    assert t[..lo] == [] && t'[..lo'] == [];
  }

  /** A first run inside the range gives way to `v`, or to nothing once the
      value is placed. */
  lemma MergedInsideTexts(rs: seq<Run>, s: int, e: int, v: string, found: bool)
    requires rs != [] && Inside(rs[0], s, e)
    ensures Texts(Merged(rs, s, e, v, found)) ==
            (if found then "" else v) + Texts(Merged(rs[1..], s, e, v, true))
  {
    var m := Merged(rs[1..], s, e, v, true);
    if found {
      assert Merged(rs, s, e, v, found) == m by { assert [] + m == m; }
      assert "" + Texts(m) == Texts(m);
    } else {
      TextsCons(Merged(rs, s, e, v, found), rs[0].(text := v), m);
    }
  }

  lemma MergedStepBefore(rs: seq<Run>, base: int, s: int, e: int, v: string, found: bool)
    requires rs != [] && rs[0].index == base && base + |rs[0].text| <= s < e
    requires !Inside(rs[0], s, e)
    requires HasInside(rs, s, e) <==> HasInside(rs[1..], s, e)
    requires MergedTextClaim(rs[1..], base + |rs[0].text|, s, e, v, found)
    ensures MergedTextClaim(rs, base, s, e, v, found)
  {
    var r, rest := rs[0], rs[1..];
    var L := |r.text|;
    var t' := Texts(rest);
    var t := Texts(rs);
    TextsCons(rs, r, rest);
    var lo', hi' := Clamp(s - base - L, |t'|), Clamp(e - base - L, |t'|);
    var lo, hi := Clamp(s - base, |t|), Clamp(e - base, |t|);
    var mid := if !found && HasInside(rest, s, e) then v else "";
    var m := Merged(rest, s, e, v, found);
    MergedTextClaimElim(rest, base + L, s, e, v, found, t', lo', hi', mid);
    MergedOutsideTexts(rs, s, e, v, found);
    ShiftedSplice(r.text, t', t, mid, Texts(m), Texts(Merged(rs, s, e, v, found)), base, s, e, lo', hi', lo, hi);
    MergedTextClaimIntro(rs, base, s, e, v, found, t, lo, hi, mid);
  }

  /** A splice of `t'` at offsets relative to `base + |x|`, with `x` put in
      front, is the same splice of `x + t'` at offsets relative to `base`. */
  lemma ShiftedSplice(x: string, t': string, t: string, mid: string, spliced: string, whole: string,
                      base: int, s: int, e: int, lo': nat, hi': nat, lo: nat, hi: nat)
    requires t == x + t' && base + |x| <= s < e
    requires lo' == Clamp(s - base - |x|, |t'|) && hi' == Clamp(e - base - |x|, |t'|)
    requires lo == Clamp(s - base, |t|) && hi == Clamp(e - base, |t|)
    requires spliced == t'[..lo'] + mid + t'[hi'..] && whole == x + spliced
    ensures whole == t[..lo] + mid + t[hi..]
  {
    ClampShift(|x|, s - base, |t'|);
    ClampShift(|x|, e - base, |t'|);
    PrependTextAt(x, t', spliced, t, lo', hi', lo, hi, mid);
  }

  /** A first run outside the range is kept in front. */
  lemma MergedOutsideTexts(rs: seq<Run>, s: int, e: int, v: string, found: bool)
    requires rs != [] && !Inside(rs[0], s, e)
    ensures Texts(Merged(rs, s, e, v, found)) == rs[0].text + Texts(Merged(rs[1..], s, e, v, found))
  {
    TextsCons(Merged(rs, s, e, v, found), rs[0], Merged(rs[1..], s, e, v, found));
  }

  lemma ClampShift(L: nat, x: int, n: nat)
    requires x >= L
    ensures Clamp(x, L + n) == L + Clamp(x - L, n)
  {
  }

  lemma MergedTextClaimElim(rs: seq<Run>, base: int, s: int, e: int, v: string, found: bool,
                            t: string, lo: nat, hi: nat, mid: string)
    requires MergedTextClaim(rs, base, s, e, v, found)
    requires t == Texts(rs) && lo == Clamp(s - base, |t|) && hi == Clamp(e - base, |t|)
    requires mid == if !found && HasInside(rs, s, e) then v else ""
    ensures Texts(Merged(rs, s, e, v, found)) == t[..lo] + mid + t[hi..]
  {
  }

  lemma PrependTextAt(x: string, t: string, spliced: string, whole: string,
                      lo': nat, hi': nat, lo: nat, hi: nat, mid: string)
    requires lo' <= |t| && hi' <= |t| && whole == x + t && lo == |x| + lo' && hi == |x| + hi'
    requires spliced == t[..lo'] + mid + t[hi'..]
    ensures x + spliced == whole[..lo] + mid + whole[hi..]
  {
    PrependText(x, t, spliced, whole, lo', hi', mid);
  }

  lemma MergedTextClaimIntro(rs: seq<Run>, base: int, s: int, e: int, v: string, found: bool,
                             t: string, lo: nat, hi: nat, mid: string)
    requires t == Texts(rs) && lo == Clamp(s - base, |t|) && hi == Clamp(e - base, |t|)
    requires mid == if !found && HasInside(rs, s, e) then v else ""
    requires Texts(Merged(rs, s, e, v, found)) == t[..lo] + mid + t[hi..]
    ensures MergedTextClaim(rs, base, s, e, v, found)
  {
  }

  lemma TextsCons(rm: seq<Run>, r: Run, m: seq<Run>)
    requires rm == [r] + m
    ensures Texts(rm) == r.text + Texts(m)
  {
    assert rm[1..] == m;
  }

  /** Putting `x` in front of a spliced `t` splices `x + t` at shifted offsets. */
  lemma PrependText(x: string, t: string, spliced: string, whole: string, lo: nat, hi: nat, mid: string)
    requires lo <= |t| && hi <= |t| && whole == x + t
    requires spliced == t[..lo] + mid + t[hi..]
    ensures x + spliced == whole[..|x| + lo] + mid + whole[|x| + hi..]
  {
    TakeConcat(x, t, |x| + lo);
    DropConcat(x, t, |x| + hi);
  }

  lemma MergedStepAfter(rs: seq<Run>, base: int, s: int, e: int, v: string, found: bool)
    requires rs != [] && rs[0].index == base && s < e <= base
    requires !Inside(rs[0], s, e) && !HasInside(rs[1..], s, e)
    requires HasInside(rs, s, e) <==> HasInside(rs[1..], s, e)
    requires MergedTextClaim(rs[1..], base + |rs[0].text|, s, e, v, found)
    ensures MergedTextClaim(rs, base, s, e, v, found)
  {
    var r, rest := rs[0], rs[1..];
    var m := Merged(rest, s, e, v, found);
    var t', t := Texts(rest), Texts(rs);
    assert Clamp(s - base - |r.text|, |t'|) == 0 && Clamp(e - base - |r.text|, |t'|) == 0;
    assert Texts(m) == t'[..0] + "" + t'[0..];
    assert t'[..0] + "" + t'[0..] == t';
    var rm := Merged(rs, s, e, v, found);
    assert rm == [r] + m;
    TextsCons(rm, r, m);
    TextsCons(rs, r, rest);
    assert Texts(rm) == t;
    assert Clamp(s - base, |t|) == 0 && Clamp(e - base, |t|) == 0;
    assert t == t[..0] + "" + t[0..];
  }

  /** Replacing an aligned range [s, e) of the paragraph's text: the text
      becomes the part before `s`, then `v`, then the part from `e` on. */
  lemma MergedText(rs: seq<Run>, s: int, e: int, v: string)
    requires IndexedFrom(rs, 0) && 0 <= s < e <= |Texts(rs)|
    requires Aligned(rs, s) && Aligned(rs, e) && HasInside(rs, s, e)
    ensures Texts(Merged(rs, s, e, v, false)) == Texts(rs)[..s] + v + Texts(rs)[e..]
  {
    MergedTextFrom(rs, 0, s, e, v, false);
  }

  /** Some run covers every position of the text. */
  lemma {:induction false} Covering(rs: seq<Run>, base: int, p: int) returns (i: nat)
    requires IndexedFrom(rs, base) && base <= p < base + |Texts(rs)|
    ensures i < |rs| && rs[i].index <= p < rs[i].index + |rs[i].text|
  {
    if p < base + |rs[0].text| {
      i := 0;
    } else {
      var j := Covering(rs[1..], base + |rs[0].text|, p);
      i := j + 1;
    }
  }

  /** Once both ends of a non-empty range lie on run boundaries, some run lies
      inside it, so the merge has a run to write into. */
  lemma AlignedHasInside(rs: seq<Run>, s: int, e: int)
    requires IndexedFrom(rs, 0) && 0 <= s < e && s < |Texts(rs)|
    requires Aligned(rs, s) && Aligned(rs, e)
    ensures HasInside(rs, s, e)
  {
    var i := Covering(rs, 0, s);
    assert !StrictlyInside(rs[i], s) && !StrictlyInside(rs[i], e);
    assert Inside(rs[i], s, e);
  }

  /** The runs from position `k` on start where the text of the runs before
      `k` ends. */
  lemma {:induction false} IndexedSuffix(rs: seq<Run>, base: int, k: nat)
    requires IndexedFrom(rs, base) && k <= |rs|
    ensures IndexedFrom(rs[k..], base + |Texts(rs[..k])|)
  {
    if k == 0 {
      assert rs[0..] == rs && rs[..0] == [];
    } else {
      IndexedSuffix(rs[1..], base + |rs[0].text|, k - 1);
      assert rs[1..][k - 1..] == rs[k..];
      TextsCons(rs[..k], rs[0], rs[1..][..k - 1]);
    }
  }

  /** Offsets never decrease along a list with accumulated offsets. */
  lemma IndexedMonotone(rs: seq<Run>, base: int, i: nat, j: nat)
    requires IndexedFrom(rs, base) && i <= j < |rs|
    ensures rs[i].index <= rs[j].index
  {
    IndexedAt(rs, base, i);
    IndexedAt(rs, base, j);
    assert rs[..j] == rs[..i] + rs[i..j];
    TextsAppend(rs[..i], rs[i..j]);
  }

  /** The first run inside [s, e), in list order. */
  lemma {:induction false} FirstInside(rs: seq<Run>, s: int, e: int) returns (i: nat)
    requires HasInside(rs, s, e)
    ensures i < |rs| && Inside(rs[i], s, e)
    ensures forall j :: 0 <= j < i ==> !Inside(rs[j], s, e)
  {
    HasInsideCons(rs, s, e);
    if Inside(rs[0], s, e) {
      i := 0;
    } else {
      var i' := FirstInside(rs[1..], s, e);
      i := i' + 1;
      forall j | 0 < j < i ensures !Inside(rs[j], s, e) {
        assert rs[j] == rs[1..][j - 1];
      }
    }
  }

  lemma StyledCons(rm: seq<Run>, r: Run, m: seq<Run>)
    requires rm == [r] + m
    ensures Styled(rm) == Paint(r.text, r.props) + Styled(m)
    ensures Texts(rm) == r.text + Texts(m)
  {
    assert rm[1..] == m;
  }

  /** Past the first selected run, a list starting at or after `s` loses its
      runs inside [s, e) and keeps everything from `e` on, formatting
      included. */
  lemma {:induction false} MergedAfterStart(rs: seq<Run>, base: int, s: int, e: int, v: string)
    requires IndexedFrom(rs, base) && s <= base && Aligned(rs, e)
    ensures AfterStartClaim(rs, base, s, e, v)
    decreases |rs|
  {
    if rs != [] {
      var rest := rs[1..];
      assert Aligned(rest, e) by {
        forall i | 0 <= i < |rest| ensures rest[i] == rs[i + 1] { }
      }
      MergedAfterStart(rest, base + |rs[0].text|, s, e, v);
      if Inside(rs[0], s, e) {
        AfterStartInside(rs, base, s, e, v);
      } else {
        AfterStartOutside(rs, base, s, e, v);
      }
    }
  }

  /** What `MergedAfterStart` states of a list. */
  ghost predicate AfterStartClaim(rs: seq<Run>, base: int, s: int, e: int, v: string)
  {
    var c := Clamp(e - base, |Texts(rs)|);
    Styled(Merged(rs, s, e, v, true)) == Styled(rs)[c..] &&
    Texts(Merged(rs, s, e, v, true)) == Texts(rs)[c..]
  }

  lemma DropAfter<T>(x: seq<T>, y: seq<T>, c: nat)
    requires c <= |y|
    ensures (x + y)[|x| + c..] == y[c..]
  {
  }

  /** The two ends of a sequence made of three parts. */
  lemma Parts<T>(a: seq<T>, b: seq<T>, c: seq<T>, e: nat)
    requires |a| + |b| <= e <= |a| + |b| + |c|
    ensures (a + b + c)[..|a|] == a
    ensures (a + b + c)[e..] == c[e - |a| - |b|..]
  {
    assert a + b + c == (a + b) + c;
  }

  lemma PartsOfRuns(before: seq<Run>, r: Run, rest: seq<Run>)
    ensures Texts(before + [r] + rest) == Texts(before) + r.text + Texts(rest)
    ensures Styled(before + [r] + rest) == Styled(before) + Paint(r.text, r.props) + Styled(rest)
  {
    var tail := [r] + rest;
    assert before + [r] + rest == before + tail;
    TextsAppend(before, tail);
    StyledAppend(before, tail);
    StyledCons(tail, r, rest);
    assert Styled(before + tail) == Styled(before) + (Paint(r.text, r.props) + Styled(rest));
  }

  lemma MergedConsInside(rs: seq<Run>, s: int, e: int, v: string)
    requires rs != [] && Inside(rs[0], s, e)
    ensures Merged(rs, s, e, v, true) == Merged(rs[1..], s, e, v, true)
  {
    assert [] + Merged(rs[1..], s, e, v, true) == Merged(rs[1..], s, e, v, true);
  }

  lemma MergedConsOutside(rs: seq<Run>, s: int, e: int, v: string)
    requires rs != [] && !Inside(rs[0], s, e)
    ensures Merged(rs, s, e, v, true) == [rs[0]] + Merged(rs[1..], s, e, v, true)
  {
  }

  lemma AfterStartInside(rs: seq<Run>, base: int, s: int, e: int, v: string)
    requires rs != [] && rs[0].index == base && Inside(rs[0], s, e)
    requires AfterStartClaim(rs[1..], base + |rs[0].text|, s, e, v)
    ensures AfterStartClaim(rs, base, s, e, v)
  {
    var r, rest := rs[0], rs[1..];
    var L := |r.text|;
    var c' := Clamp(e - base - L, |Texts(rest)|);
    assert Styled(Merged(rest, s, e, v, true)) == Styled(rest)[c'..];
    assert Texts(Merged(rest, s, e, v, true)) == Texts(rest)[c'..];
    MergedConsInside(rs, s, e, v);
    StyledCons(rs, r, rest);
    ClampShift(L, e - base, |Texts(rest)|);
    var c := Clamp(e - base, |Texts(rs)|);
    ShiftedTail(r.text, Texts(rest), Texts(rs), c', c);
    ShiftedTail(Paint(r.text, r.props), Styled(rest), Styled(rs), c', c);
    AfterStartClaimIntro(rs, base, s, e, v, c);
  }

  lemma AfterStartClaimIntro(rs: seq<Run>, base: int, s: int, e: int, v: string, c: nat)
    requires c == Clamp(e - base, |Texts(rs)|)
    requires Styled(Merged(rs, s, e, v, true)) == Styled(rs)[c..]
    requires Texts(Merged(rs, s, e, v, true)) == Texts(rs)[c..]
    ensures AfterStartClaim(rs, base, s, e, v)
  {
  }

  /** Dropping a prefix of `x + y` longer than `x`. */
  lemma ShiftedTail<T>(x: seq<T>, y: seq<T>, whole: seq<T>, c': nat, c: nat)
    requires whole == x + y && c' <= |y| && c == |x| + c'
    ensures whole[c..] == y[c'..]
  {
    DropAfter(x, y, c');
  }

  lemma AfterStartOutside(rs: seq<Run>, base: int, s: int, e: int, v: string)
    requires rs != [] && rs[0].index == base && s <= base
    requires !Inside(rs[0], s, e) && !StrictlyInside(rs[0], e)
    requires AfterStartClaim(rs[1..], base + |rs[0].text|, s, e, v)
    ensures AfterStartClaim(rs, base, s, e, v)
  {
    var r, rest := rs[0], rs[1..];
    var m := Merged(rest, s, e, v, true);
    assert e <= base;
    assert Clamp(e - base - |r.text|, |Texts(rest)|) == 0;
    assert Styled(m) == Styled(rest) && Texts(m) == Texts(rest);
    MergedConsOutside(rs, s, e, v);
    StyledCons(Merged(rs, s, e, v, true), r, m);
    StyledCons(rs, r, rest);
    assert Clamp(e - base, |Texts(rs)|) == 0;
  }

  /** Merging a range [s, e) whose ends lie on run boundaries: the runs before
      the range stay as they are; the first run inside it, which starts at
      `s`, holds `v` with its own formatting; the runs from `e` on follow.
      Every character outside the range keeps its formatting. */
  lemma MergedRuns(rs: seq<Run>, s: int, e: int, v: string) returns (k: nat)
    requires IndexedFrom(rs, 0) && 0 <= s < e <= |Texts(rs)|
    requires Aligned(rs, s) && Aligned(rs, e)
    ensures var out := Merged(rs, s, e, v, false);
      k < |rs| && k < |out| && out[..k] == rs[..k] && out[k] == rs[k].(text := v) &&
      rs[k].index == s &&
      Texts(out[..k]) == Texts(rs)[..s] && Texts(out[k + 1..]) == Texts(rs)[e..] &&
      Styled(out) == Styled(rs)[..s] + Paint(v, rs[k].props) + Styled(rs)[e..]
  {
    k := FirstInsideAt(rs, s, e);
    var r, before, rest := rs[k], rs[..k], rs[k + 1..];
    MergedAfterStart(rest, s + |r.text|, s, e, v);
    MergedShape(rs, s, e, v, k);
    assert rs == before + [r] + rest;
    MergedRunsCompose(rs, before, r, rest, Merged(rest, s, e, v, true), Merged(rs, s, e, v, false), s, e, v);
  }

  /** The first run inside an aligned range starts at `s`, after exactly the
      text before `s`. */
  lemma FirstInsideAt(rs: seq<Run>, s: int, e: int) returns (k: nat)
    requires IndexedFrom(rs, 0) && 0 <= s < e <= |Texts(rs)|
    requires Aligned(rs, s) && Aligned(rs, e)
    ensures k < |rs| && Inside(rs[k], s, e) && rs[k].index == s
    ensures forall j :: 0 <= j < k ==> !Inside(rs[j], s, e)
    ensures |Texts(rs[..k])| == s
    ensures IndexedFrom(rs[k + 1..], s + |rs[k].text|) && Aligned(rs[k + 1..], e)
  {
    AlignedHasInside(rs, s, e);
    k := FirstInside(rs, s, e);
    var r := rs[k];
    assert r.index == s by {
      var j := Covering(rs, 0, s);
      assert Inside(rs[j], s, e);
      IndexedMonotone(rs, 0, k, j);
    }
    IndexedAt(rs, 0, k);
    IndexedSuffix(rs, 0, k + 1);
    assert rs[..k + 1] == rs[..k] + [r];
    TextsAppend(rs[..k], [r]);
    StyledCons([r], r, []);
    var rest := rs[k + 1..];
    forall i | 0 <= i < |rest| ensures !StrictlyInside(rest[i], e) {
      assert rest[i] == rs[k + 1 + i];
    }
  }

  lemma MergedRunsCompose(rs: seq<Run>, before: seq<Run>, r: Run, rest: seq<Run>, m: seq<Run>,
                          out: seq<Run>, s: int, e: int, v: string)
    requires rs == before + [r] + rest && out == before + [r.(text := v)] + m
    requires |Texts(before)| == s && s + |r.text| <= e <= |Texts(rs)|
    requires AfterStartClaim(rest, s + |r.text|, s, e, v) && m == Merged(rest, s, e, v, true)
    ensures out[..|before|] == before && out[|before| + 1..] == m
    ensures Texts(out[..|before|]) == Texts(rs)[..s] && Texts(out[|before| + 1..]) == Texts(rs)[e..]
    ensures Styled(out) == Styled(rs)[..s] + Paint(v, r.props) + Styled(rs)[e..]
  {
    var c := e - s - |r.text|;
    PartsOfRuns(before, r, rest);
    assert Clamp(c, |Texts(rest)|) == c;
    ComposeTexts(rs, before, r, rest, m, out, s, e, v, c);
    PartsOfRuns(before, r.(text := v), m);
    ComposeStyled(Styled(rs), Styled(before), Paint(r.text, r.props), Styled(rest), Styled(m),
                  Styled(out), Paint(v, r.props), s, e, c);
  }

  lemma ComposeTexts(rs: seq<Run>, before: seq<Run>, r: Run, rest: seq<Run>, m: seq<Run>,
                     out: seq<Run>, s: int, e: int, v: string, c: nat)
    requires out == before + [r.(text := v)] + m
    requires Texts(rs) == Texts(before) + r.text + Texts(rest)
    requires |Texts(before)| == s && c == e - s - |r.text| && c <= |Texts(rest)|
    requires Texts(m) == Texts(rest)[c..]
    ensures out[..|before|] == before && out[|before| + 1..] == m
    ensures Texts(out[..|before|]) == Texts(rs)[..s] && Texts(out[|before| + 1..]) == Texts(rs)[e..]
  {
    SpliceSeq(Texts(rs), Texts(before), r.text, Texts(rest), s, e);
    assert out == (before + [r.(text := v)]) + m;
  }

  lemma ComposeStyled<T>(whole: seq<T>, a: seq<T>, b: seq<T>, rest: seq<T>, m: seq<T>,
                         out: seq<T>, vb: seq<T>, s: nat, e: nat, c: nat)
    requires whole == a + b + rest && out == a + vb + m
    requires |a| == s && c == e - s - |b| && c <= |rest| && m == rest[c..]
    ensures out == whole[..s] + vb + whole[e..]
  {
    SpliceSeq(whole, a, b, rest, s, e);
  }

  /** A sequence made of three parts, cut at the end of the first and at a
      point `e` in the third. */
  lemma SpliceSeq<T>(whole: seq<T>, a: seq<T>, b: seq<T>, c: seq<T>, s: nat, e: nat)
    requires whole == a + b + c && |a| == s && s + |b| <= e <= |whole|
    ensures whole[..s] == a && whole[e..] == c[e - s - |b|..]
  {
    Parts(a, b, c, e);
  }

  /** Merging invents no formatting: every run left carries the formatting
      of a run that was there before. */
  lemma {:induction false} MergedProps(rs: seq<Run>, s: int, e: int, v: string, found: bool)
    ensures forall x :: x in Merged(rs, s, e, v, found) ==> exists j :: 0 <= j < |rs| && rs[j].props == x.props
  {
    if rs != [] {
      var f' := found || Inside(rs[0], s, e);
      MergedProps(rs[1..], s, e, v, f');
      var head := if !Inside(rs[0], s, e) then [rs[0]] else if found then [] else [rs[0].(text := v)];
      assert Merged(rs, s, e, v, found) == head + Merged(rs[1..], s, e, v, f');
      forall x: Run | x in Merged(rs, s, e, v, found) ensures exists j :: 0 <= j < |rs| && rs[j].props == x.props {
        if x in head {
          assert rs[0].props == x.props;
        } else {
          var j :| 0 <= j < |rs[1..]| && rs[1..][j].props == x.props;
          assert rs[j + 1] == rs[1..][j];
        }
      }
    }
  }

  // ---------------------------------------------------------------------------
  // Small lists

  lemma SplitOneNone(r: Run, indexes: seq<int>)
    requires Increasing(indexes) && LocalCuts(r, indexes) == []
    ensures SplitOne(r, indexes) == [r]
  {
  }

  lemma SplitOneAt(r: Run, indexes: seq<int>, c: int)
    requires Increasing(indexes) && LocalCuts(r, indexes) == [c]
    ensures 0 < c < |r.text|
    ensures SplitOne(r, indexes) == [Fragment(r, 0, c), Fragment(r, c, |r.text|)]
  {
    assert LocalCuts(r, indexes)[0] == c;
    assert [c][1..] == [];
    assert Pieces(r, c, []) == [Fragment(r, c, |r.text|)];
  }

  lemma SplitAllSingle(r: Run, indexes: seq<int>)
    requires Increasing(indexes)
    ensures SplitAll([r], indexes) == SplitOne(r, indexes)
  {
    assert [r][1..] == [];
    assert SplitAll([], indexes) == [];
  }

  lemma SplitAllPair(r1: Run, r2: Run, indexes: seq<int>)
    requires Increasing(indexes)
    ensures SplitAll([r1, r2], indexes) == SplitOne(r1, indexes) + SplitOne(r2, indexes)
  {
    assert [r1, r2][1..] == [r2];
    SplitAllSingle(r2, indexes);
  }

  /** Of four runs, the middle two inside the range: the first of them takes
      `v` and the second is dropped. */
  lemma MergedDropsSecond(r0: Run, r1: Run, r2: Run, r3: Run, s: int, e: int, v: string)
    requires !Inside(r0, s, e) && Inside(r1, s, e) && Inside(r2, s, e) && !Inside(r3, s, e)
    ensures Merged([r0, r1, r2, r3], s, e, v, false) == [r0, r1.(text := v), r3]
  {
    var rs := [r0, r1, r2, r3];
    assert rs[1..] == [r1, r2, r3] && [r1, r2, r3][1..] == [r2, r3] && [r2, r3][1..] == [r3] && [r3][1..] == [];
    assert Merged([r3], s, e, v, true) == [r3];
    assert Merged([r2, r3], s, e, v, true) == [r3];
    assert Merged([r1, r2, r3], s, e, v, false) == [r1.(text := v), r3];
  }

  lemma Texts3(a: Run, b: Run, c: Run)
    ensures Texts([a, b, c]) == a.text + b.text + c.text
  {
    TextsCons([c], c, []);
    TextsCons([b, c], b, [c]);
    TextsCons([a, b, c], a, [b, c]);
  }

  // ---------------------------------------------------------------------------
  // The collection object

  /** The run children of a parent element, in document order. */
  function RunChildren(ns: seq<Node>): seq<Node>
  {
    if ns == [] then []
    else (if IsNamed(ns[0], "w:r") then [ns[0]] else []) + RunChildren(ns[1..])
  }

  function FromNodes(ns: seq<Node>): (rs: seq<Run>)
    ensures |rs| == |ns| && forall i :: 0 <= i < |ns| ==> rs[i] == FromNode(ns[i])
  {
    if ns == [] then [] else [FromNode(ns[0])] + FromNodes(ns[1..])
  }

  /** Appending a run that starts where the list's text ends keeps the list
      indexed from 0. */
  lemma AppendRun(rs: seq<Run>, r: Run)
    requires IndexedFrom(rs, 0) && r.index == |Texts(rs)|
    ensures IndexedFrom(rs + [r], 0) && |Texts(rs + [r])| == r.index + |r.text|
    ensures forall k :: 0 <= k < |rs| ==> (rs + [r])[k] == rs[k]
    ensures (rs + [r])[|rs|] == r
  {
    assert [r][1..] == [];
    IndexedAppend(rs, [r], 0);
    TextsAppend(rs, [r]);
  }

  /** The loop of the collection's constructor: each element becomes a run
      whose offset is the length of the text read so far. */
  method ReadRuns(elements: seq<Node>) returns (collection: seq<Run>)
    ensures IndexedFrom(collection, 0) && |collection| == |elements|
    ensures forall k :: 0 <= k < |elements| ==>
              collection[k] == FromNode(elements[k]).(index := collection[k].index)
    ensures collection == Reindexed(FromNodes(elements), 0)
  {
    collection := [];
    var index := 0;
    var i := 0;
    while i < |elements|
      invariant 0 <= i <= |elements| && |collection| == i
      invariant IndexedFrom(collection, 0) && index == |Texts(collection)|
      invariant forall k :: 0 <= k < i ==>
                  collection[k] == FromNode(elements[k]).(index := collection[k].index)
    {
      var run := FromNode(elements[i]).(index := index);
      AppendRun(collection, run);
      collection := collection + [run];
      index := index + |run.text|;
      i := i + 1;
    }
    ReindexedUnique(collection, FromNodes(elements), 0);
  }

  /** Runs with consistent offsets are determined by their texts and
      properties. */
  lemma {:induction false} ReindexedUnique(rs: seq<Run>, xs: seq<Run>, base: int)
    requires IndexedFrom(rs, base) && |rs| == |xs|
    requires forall k :: 0 <= k < |rs| ==> rs[k] == xs[k].(index := rs[k].index)
    ensures rs == Reindexed(xs, base)
  {
    if rs != [] {
      assert forall k :: 0 <= k < |rs[1..]| ==> rs[1..][k] == rs[k + 1] && xs[1..][k] == xs[k + 1];
      ReindexedUnique(rs[1..], xs[1..], base + |rs[0].text|);
    }
  }

  class RunCollection {
    var parent: ParentNode
    var nodes: seq<Run>

    ghost predicate Valid()
      reads this
    {
      IndexedFrom(nodes, 0)
    }

    /** `getCollectionText`: the runs' texts in order; its length is where the
        last run ends. */
    function Text(): (t: string)
      reads this
      requires Valid()
      ensures nodes != [] ==> |t| == nodes[|nodes| - 1].index + |nodes[|nodes| - 1].text|
      ensures nodes == [] ==> t == ""
    {
      var t := Texts(nodes);
      if nodes != [] then
        IndexedAt(nodes, 0, |nodes| - 1);
        assert nodes[|nodes|..] == [];
        t
      else t
    }

    /** Reads the given run elements, or the `w:r` children of `parent` when
        none are given. */
    constructor (parent: ParentNode, runNodes: Option<seq<Node>>)
      ensures this.parent == parent && Valid()
      ensures nodes == Reindexed(FromNodes(if runNodes.Some? then runNodes.value else RunChildren(parent.children)), 0)
    {
      var elements := if runNodes.Some? then runNodes.value else RunChildren(parent.children);
      var collection := ReadRuns(elements);
      this.parent := parent;
      nodes := collection;
    }

    /** `split`: cuts the runs at the given points of the paragraph's text.
        The source gathers the new runs per position and inserts them one at a
        time at that same position, which reverses them. The positions are
        those of the list before any insertion, so the runs inserted for an
        earlier run push later runs back, and a later run's new runs land in
        front of it. The model inserts the new runs right after their run in
        ascending order, as intended. */
    method Split(indexes: seq<int>)
      requires Valid() && Increasing(indexes)
      modifies this
      ensures Valid() && parent == old(parent)
      ensures nodes == SplitAll(old(nodes), indexes)
      ensures Text() == old(Text())
      ensures forall x :: x in indexes ==> Aligned(nodes, x)
    {
      var runs := nodes;
      var result: seq<Run> := [];
      var i := 0;
      while i < |runs|
        modifies {}
        invariant 0 <= i <= |runs|
        invariant result + SplitAll(runs[i..], indexes) == SplitAll(runs, indexes)
      {
        var item := runs[i];
        var currentIndexes := RunCuts(item, indexes);
        var pieces: seq<Run>;
        if |currentIndexes| > 0 {
          var head, tail := SplitRun(item, currentIndexes);
          pieces := [head] + tail;
        } else {
          pieces := [item];
        }
        SplitAllStep(runs, i, indexes, result, pieces);
        result := result + pieces;
        i := i + 1;
      }
      assert result == SplitAll(runs, indexes) && Texts(result) == Texts(runs) by {
        assert runs[i..] == [];
        SplitAllPreserves(runs, indexes, 0);
      }
      assert forall x :: x in indexes ==> Aligned(result, x) by {
        forall x | x in indexes ensures Aligned(result, x) {
          SplitAllAligns(runs, indexes, x);
        }
      }
      SplitAllPreserves(runs, indexes, 0);
      nodes := result;
    }

    /** `mergeReplace`: the first run inside [start, end) takes `value`, the
        other runs inside are removed, and the offsets are recomputed. Fails,
        changing nothing, when no run lies inside the range (the source then
        dereferences an undefined run).

        As written, the source replaces the list by the run it removes
        (`this.nodes = this.nodes.splice(index, 1)`) and never detaches the
        removed runs from the tree; the model removes them from the list,
        which stands for the tree. It also recomputes the offsets after the
        merge, which the source leaves stale. */
    method MergeReplace(start: int, end: int, value: string) returns (ok: bool)
      requires Valid()
      modifies this
      ensures Valid() && parent == old(parent)
      ensures ok == HasInside(old(nodes), start, end)
      ensures ok ==> nodes == Reindexed(Merged(old(nodes), start, end, value, false), 0)
      ensures !ok ==> nodes == old(nodes)
    {
      var runs := nodes;
      var result: seq<Run> := [];
      var found := false;
      var i := 0;
      while i < |runs|
        invariant 0 <= i <= |runs|
        modifies {}
        invariant result + Merged(runs[i..], start, end, value, found) ==
                  Merged(runs, start, end, value, false)
        invariant found == HasInside(runs[..i], start, end)
      {
        var item := runs[i];
        var selected := Inside(item, start, end);
        var kept := if !selected then [item] else if found then [] else [item.(text := value)];
        MergedStep(runs, i, start, end, value, found, result, kept);
        result := result + kept;
        found := found || selected;
        i := i + 1;
      }
      assert runs[..i] == runs && runs[i..] == [];
      assert result == Merged(runs, start, end, value, false);
      ok := found;
      if ok {
        ReindexedFacts(result, 0);
        nodes := Reindexed(result, 0);
      }
    }
  }
}
