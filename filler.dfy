/** `DocxTokenFiller.replace`: the runs of the document are grouped by their
    parent element, and in each group the token `{key}` of every field is
    replaced by the field's value. */
module TokenFiller {
  import opened Runs
  import opened RunCollections
  import opened FieldValues

  // ---------------------------------------------------------------------------
  // Tokens and their first occurrence
  // ---------------------------------------------------------------------------

  /** The name a field's token uses: its display name or its internal name. */
  function Key(f: Field, useDisplayNames: bool): string
  {
    if useDisplayNames then f.title else f.internalName
  }

  function Token(key: string): string
  {
    "{" + key + "}"
  }

  /** `pat` occurs in `t` at position `i`. */
  predicate MatchAt(t: string, pat: string, i: nat)
  {
    i + |pat| <= |t| && t[i..i + |pat|] == pat
  }

  /** The leftmost occurrence of `pat` in `t` at or after `from`. */
  function FindFrom(t: string, pat: string, from: nat): Option<nat>
    decreases |t| - from
  {
    if from + |pat| > |t| then None
    else if MatchAt(t, pat, from) then Some(from)
    else FindFrom(t, pat, from + 1)
  }

  /** `regex.exec(text)` for the literal pattern `pat`: the leftmost match. */
  function FindFirst(t: string, pat: string): Option<nat>
  {
    FindFrom(t, pat, 0)
  }

  /** The search from `from` finds an occurrence with none before it, back to
      `from`, or reports correctly that there is none. */
  lemma {:induction false} FindFromSound(t: string, pat: string, from: nat)
    ensures var r := FindFrom(t, pat, from);
      r.Some? ==> from <= r.value && MatchAt(t, pat, r.value) &&
                  forall j: nat :: from <= j < r.value ==> !MatchAt(t, pat, j)
    ensures FindFrom(t, pat, from).None? ==> forall j: nat :: from <= j ==> !MatchAt(t, pat, j)
    decreases |t| - from
  {
    if from + |pat| <= |t| && !MatchAt(t, pat, from) {
      FindFromSound(t, pat, from + 1);
    }
  }

  /** The search finds the leftmost occurrence, or there is none. */
  lemma FindFirstSound(t: string, pat: string)
    ensures var r := FindFirst(t, pat);
      r.Some? ==> MatchAt(t, pat, r.value) && forall j: nat :: j < r.value ==> !MatchAt(t, pat, j)
    ensures FindFirst(t, pat).None? ==> forall j: nat :: !MatchAt(t, pat, j)
  {
    FindFromSound(t, pat, 0);
  }

  /** An occurrence with none before it is the one the search finds. */
  lemma FindFirstAt(t: string, pat: string, i: nat)
    requires MatchAt(t, pat, i) && forall j: nat :: j < i ==> !MatchAt(t, pat, j)
    ensures FindFirst(t, pat) == Some(i)
  {
    FindFirstSound(t, pat);
  }

  /** The key holds no brace. */
  predicate NoBraces(key: string)
  {
    forall p :: 0 <= p < |key| ==> key[p] != '{' && key[p] != '}'
  }

  /** A token never occurs inside another field's token: when neither key
      holds a brace, `{k1}` occurs in `{k2}` only if the keys are equal. */
  lemma TokenOnlyInItself(k1: string, k2: string, i: nat)
    requires NoBraces(k1) && NoBraces(k2)
    requires MatchAt(Token(k2), Token(k1), i)
    ensures k1 == k2
  {
    var t1, t2 := Token(k1), Token(k2);
    assert forall p :: 1 <= p < |t2| - 1 ==> t2[p] == k2[p - 1];
    assert t2[i] == t1[0] == '{';
    assert i == 0;
    var last := |t1| - 1;
    assert t2[last] == t1[last] == '}';
    assert last == |t2| - 1;
    assert k1 == t1[1..last] == t2[1..last] == k2;
  }

  // ---------------------------------------------------------------------------
  // The text of a paragraph, filled
  // ---------------------------------------------------------------------------

  /** One field's substitution: the leftmost token of the field is replaced by
      the field's value; a text without the token is left as it is. */
  function Substitute(text: string, f: Field, item: Item, useDisplayNames: bool,
                      formatDate: Value -> string): string
  {
    var tok := Token(Key(f, useDisplayNames));
    FindFirstSound(text, tok);
    match FindFirst(text, tok)
    case None => text
    case Some(i) => text[..i] + FieldString(item, f, formatDate) + text[i + |tok|..]
  }

  /** Without the field's token the text is unchanged; otherwise the leftmost
      token is replaced by the field's value. */
  lemma SubstituteSound(text: string, f: Field, item: Item, useDisplayNames: bool,
                        formatDate: Value -> string)
    ensures var tok := Token(Key(f, useDisplayNames));
      (forall j: nat :: !MatchAt(text, tok, j)) ==> Substitute(text, f, item, useDisplayNames, formatDate) == text
    ensures var tok := Token(Key(f, useDisplayNames));
      forall i: nat :: MatchAt(text, tok, i) && (forall j: nat :: j < i ==> !MatchAt(text, tok, j)) ==>
        Substitute(text, f, item, useDisplayNames, formatDate) == text[..i] + FieldString(item, f, formatDate) + text[i + |tok|..]
  {
    var tok := Token(Key(f, useDisplayNames));
    var r := Substitute(text, f, item, useDisplayNames, formatDate);
    FindFirstSound(text, tok);
    match FindFirst(text, tok)
    case None =>
      assert r == text;
    case Some(k) =>
      assert r == text[..k] + FieldString(item, f, formatDate) + text[k + |tok|..];
      forall i: nat | MatchAt(text, tok, i) && (forall j: nat :: j < i ==> !MatchAt(text, tok, j))
        ensures i == k
      {
        if i < k { assert false; }
        if k < i { assert false; }
      }
  }

  /** Where the field's token first occurs at `s`, the substitution puts the
      value in its place. */
  lemma SubstituteAt(text: string, f: Field, item: Item, useDisplayNames: bool,
                     formatDate: Value -> string, s: nat)
    requires FindFirst(text, Token(Key(f, useDisplayNames))) == Some(s)
    ensures s + |Token(Key(f, useDisplayNames))| <= |text|
    ensures Substitute(text, f, item, useDisplayNames, formatDate) ==
            text[..s] + FieldString(item, f, formatDate) + text[s + |Token(Key(f, useDisplayNames))|..]
  {
    FindFirstSound(text, Token(Key(f, useDisplayNames)));
  }

  /** Where the field's token does not occur, the text stays as it is. */
  lemma SubstituteNone(text: string, f: Field, item: Item, useDisplayNames: bool,
                       formatDate: Value -> string)
    requires FindFirst(text, Token(Key(f, useDisplayNames))).None?
    ensures Substitute(text, f, item, useDisplayNames, formatDate) == text
  {
  }

  /** The fields substituted in turn, each in the text the previous ones left. */
  function FillText(text: string, fields: seq<Field>, item: Item, useDisplayNames: bool,
                    formatDate: Value -> string): string
    decreases |fields|
  {
    if fields == [] then text
    else FillText(Substitute(text, fields[0], item, useDisplayNames, formatDate),
                  fields[1..], item, useDisplayNames, formatDate)
  }

  /** No field's token occurs in `text`. */
  ghost predicate NoTokens(text: string, fields: seq<Field>, useDisplayNames: bool)
  {
    forall f, j: nat :: f in fields && j <= |text| ==> !MatchAt(text, Token(Key(f, useDisplayNames)), j)
  }

  /** A paragraph holding none of the tokens is left as it is. */
  lemma {:induction false} FillTextUntouched(text: string, fields: seq<Field>, item: Item,
                                             useDisplayNames: bool, formatDate: Value -> string)
    requires NoTokens(text, fields, useDisplayNames)
    ensures FillText(text, fields, item, useDisplayNames, formatDate) == text
  {
    if fields != [] {
      assert fields[0] in fields;
      FindFirstSound(text, Token(Key(fields[0], useDisplayNames)));
      assert Substitute(text, fields[0], item, useDisplayNames, formatDate) == text;
      FillTextUntouched(text, fields[1..], item, useDisplayNames, formatDate);
    }
  }

  lemma FillTextExample(formatDate: Value -> string)
    ensures FillText("Hello {Name}!", [Field("Name", "Full name", "Text")],
                     map["Name" := Str("Alice")], false, formatDate) == "Hello Alice!"
  {
    var f := Field("Name", "Full name", "Text");
    var item := map["Name" := Str("Alice")];
    FieldStringExample(item, f, formatDate);
    SubstituteExample("Hello {Name}!", f, item, formatDate, "Alice");
    FillTextSingle("Hello {Name}!", f, item, formatDate);
  }

  lemma FieldStringExample(item: Item, f: Field, formatDate: Value -> string)
    requires item == map["Name" := Str("Alice")] && f == Field("Name", "Full name", "Text")
    ensures FieldString(item, f, formatDate) == "Alice"
  {
  }

  lemma FillTextSingle(text: string, f: Field, item: Item, formatDate: Value -> string)
    ensures FillText(text, [f], item, false, formatDate) == Substitute(text, f, item, false, formatDate)
  {
    assert [f][1..] == [];
  }

  /** The token `{Name}` after "Hello " is the first one. */
  lemma SubstituteExample(text: string, f: Field, item: Item, formatDate: Value -> string, v: string)
    requires text == "Hello {Name}!" && f.internalName == "Name"
    requires FieldString(item, f, formatDate) == v && v == "Alice"
    ensures Substitute(text, f, item, false, formatDate) == "Hello Alice!"
  {
    var tok := Token(Key(f, false));
    assert tok == "{Name}";
    assert MatchAt(text, tok, 6);
    forall j: nat | j < 6 ensures !MatchAt(text, tok, j) {
      assert text[j..j + |tok|][0] == text[j] != tok[0];
    }
    FindFirstAt(text, tok, 6);
    assert text[..6] == "Hello " && text[12..] == "!";
    assert "Hello " + v + "!" == "Hello Alice!";
  }

  // ---------------------------------------------------------------------------
  // Filling one group of runs
  // ---------------------------------------------------------------------------

  /** The loop body of `replace` for one collection: for each field, the text
      is searched for the field's token; when found, the runs are cut at both
      ends of the token and the runs in between merged into one that holds the
      value. The runs become `FillRuns` of the runs before, and the paragraph's
      text `FillText` of its text before.

      The source reads the text once, before the field loop, and matches
      every field against it; the model reads the current text for each
      field, as intended (see the findings module). */
  method FillCollection(coll: RunCollection, fields: seq<Field>, item: Item,
                        useDisplayNames: bool, formatDate: Value -> string)
    requires coll.Valid()
    modifies coll
    ensures coll.Valid() && coll.parent == old(coll.parent)
    ensures coll.nodes == FillRuns(old(coll.nodes), fields, item, useDisplayNames, formatDate)
    ensures coll.Text() == FillText(old(coll.Text()), fields, item, useDisplayNames, formatDate)
    ensures NoTokens(old(coll.Text()), fields, useDisplayNames) ==> coll.nodes == old(coll.nodes)
  {
    ghost var runs0 := coll.nodes;
    ghost var goal := FillRuns(runs0, fields, item, useDisplayNames, formatDate);
    var k := 0;
    while k < |fields|
      invariant 0 <= k <= |fields|
      invariant coll.Valid() && coll.parent == old(coll.parent)
      invariant FillRuns(coll.nodes, fields[k..], item, useDisplayNames, formatDate) == goal
    {
      FillRunsStep(coll.nodes, fields, k, item, useDisplayNames, formatDate);
      FillField(coll, fields[k], item, useDisplayNames, formatDate);
      k := k + 1;
    }
    assert fields[k..] == [];
    FillRunsText(runs0, fields, item, useDisplayNames, formatDate);
    if NoTokens(Texts(runs0), fields, useDisplayNames) {
      FillRunsUntouched(runs0, fields, item, useDisplayNames, formatDate);
    }
  }

  /** One iteration of the field loop of `replace`: when the field's token
      occurs in the text, the runs are cut at both of its ends and the runs in
      between are merged into one holding the value. */
  method FillField(coll: RunCollection, field: Field, item: Item,
                   useDisplayNames: bool, formatDate: Value -> string)
    requires coll.Valid()
    modifies coll
    ensures coll.Valid() && coll.parent == old(coll.parent)
    ensures coll.nodes == FillStep(old(coll.nodes), field, item, useDisplayNames, formatDate)
    ensures Texts(coll.nodes) == Substitute(old(Texts(coll.nodes)), field, item, useDisplayNames, formatDate)
    ensures NoMatch(old(Texts(coll.nodes)), Token(Key(field, useDisplayNames))) ==> coll.nodes == old(coll.nodes)
  {
    ghost var runs := coll.nodes;
    var text := coll.Text();
    var tok := Token(Key(field, useDisplayNames));
    match FindFirst(text, tok) {
      case None =>
        FillStepNone(runs, field, item, useDisplayNames, formatDate);
      case Some(start) =>
        var value := FieldString(item, field, formatDate);
        var end := start + |tok|;
        FillStepParts(runs, field, item, useDisplayNames, formatDate, start, end, value);
        coll.Split([start, end]);
        var ok := coll.MergeReplace(start, end, value);
    }
    FillStepText(runs, field, item, useDisplayNames, formatDate);
    if NoMatch(Texts(runs), tok) {
      FillStepNoMatch(runs, field, item, useDisplayNames, formatDate);
    }
  }

  /** `pat` occurs nowhere in `text`. */
  ghost predicate NoMatch(text: string, pat: string)
  {
    forall j: nat :: j <= |text| ==> !MatchAt(text, pat, j)
  }

  /** Unfolds `FillText` at the `k`-th field. */
  lemma FillTextStep(text: string, fields: seq<Field>, k: nat, item: Item,
                     useDisplayNames: bool, formatDate: Value -> string)
    requires k < |fields|
    ensures FillText(text, fields[k..], item, useDisplayNames, formatDate) ==
            FillText(Substitute(text, fields[k], item, useDisplayNames, formatDate),
                     fields[k + 1..], item, useDisplayNames, formatDate)
  {
    assert fields[k..][0] == fields[k] && fields[k..][1..] == fields[k + 1..];
  }

  /** Merging the runs between two cut points of the text replaces that part
      of the text by the value and keeps the offsets consistent. */
  lemma MergeStep(cut: seq<Run>, text: string, start: nat, end: nat, value: string)
    requires IndexedFrom(cut, 0) && Texts(cut) == text && start < end <= |text|
    requires Aligned(cut, start) && Aligned(cut, end)
    ensures HasInside(cut, start, end)
    ensures var merged := Reindexed(Merged(cut, start, end, value, false), 0);
      IndexedFrom(merged, 0) && Texts(merged) == text[..start] + value + text[end..]
  {
    AlignedHasInside(cut, start, end);
    MergedText(cut, start, end, value);
    ReindexedFacts(Merged(cut, start, end, value, false), 0);
  }

  // ---------------------------------------------------------------------------
  // The runs of a paragraph, filled
  // ---------------------------------------------------------------------------

  /** The runs cut at `s` and `e`, the runs in between merged into one holding
      `v`, and the offsets recomputed. */
  function Refilled(runs: seq<Run>, s: nat, e: nat, v: string): seq<Run>
    requires s < e
  {
    Reindexed(Merged(SplitAll(runs, [s, e]), s, e, v, false), 0)
  }

  /** One field on the runs of a paragraph: when the field's token occurs,
      the runs are refilled at its leftmost occurrence; otherwise they stay as
      they are. */
  function FillStep(runs: seq<Run>, f: Field, item: Item, useDisplayNames: bool,
                    formatDate: Value -> string): seq<Run>
  {
    var tok := Token(Key(f, useDisplayNames));
    match FindFirst(Texts(runs), tok)
    case None => runs
    case Some(s) => Refilled(runs, s, s + |tok|, FieldString(item, f, formatDate))
  }

  /** The fields applied in turn to the runs, each to the runs the previous
      ones left. */
  function FillRuns(runs: seq<Run>, fields: seq<Field>, item: Item, useDisplayNames: bool,
                    formatDate: Value -> string): seq<Run>
    decreases |fields|
  {
    if fields == [] then runs
    else FillRuns(FillStep(runs, fields[0], item, useDisplayNames, formatDate),
                  fields[1..], item, useDisplayNames, formatDate)
  }

  /** `out` is `runs` with the text between `s` and `e` replaced by `v`, held
      in the single run `out[k]` at offset `s`: the runs before it show the
      text before `s`, the runs after it the text from `e`, every character
      outside the range keeps its formatting, and the value takes the
      formatting of a run of `runs`. */
  ghost predicate RefilledAt(runs: seq<Run>, out: seq<Run>, s: nat, e: nat, v: string, k: nat)
  {
    s <= e <= |Texts(runs)| && IndexedFrom(out, 0) && k < |out| && out[k].text == v && out[k].index == s &&
    Texts(out[..k]) == Texts(runs)[..s] && Texts(out[k + 1..]) == Texts(runs)[e..] &&
    Styled(out) == Styled(runs)[..s] + Paint(v, out[k].props) + Styled(runs)[e..] &&
    exists j :: 0 <= j < |runs| && runs[j].props == out[k].props
  }

  /** Cutting the runs at `s` and `e` keeps the paragraph, its offsets and
      its formatting, and leaves a run boundary at both points. */
  lemma CutAt(runs: seq<Run>, s: nat, e: nat)
    requires IndexedFrom(runs, 0) && s < e
    ensures IndexedFrom(SplitAll(runs, [s, e]), 0) && Texts(SplitAll(runs, [s, e])) == Texts(runs)
    ensures Styled(SplitAll(runs, [s, e])) == Styled(runs)
    ensures Aligned(SplitAll(runs, [s, e]), s) && Aligned(SplitAll(runs, [s, e]), e)
    ensures PropsFrom(SplitAll(runs, [s, e]), runs)
  {
    SplitAllPreserves(runs, [s, e], 0);
    SplitAllAligns(runs, [s, e], s);
    SplitAllAligns(runs, [s, e], e);
    SplitAllStyled(runs, [s, e]);
  }

  /** Merging the runs of an aligned range and recomputing the offsets puts
      the value in one run at the range's place. */
  lemma MergedAt(cut: seq<Run>, s: nat, e: nat, v: string) returns (k: nat)
    requires IndexedFrom(cut, 0) && s < e <= |Texts(cut)| && Aligned(cut, s) && Aligned(cut, e)
    ensures RefilledAt(cut, Reindexed(Merged(cut, s, e, v, false), 0), s, e, v, k)
  {
    k := MergedRuns(cut, s, e, v);
    var m := Merged(cut, s, e, v, false);
    var out := Reindexed(m, 0);
    ReindexedFacts(m, 0);
    SameContentAround(out, m, k);
    IndexedAt(out, 0, k);
  }

  /** Refilling a range puts the value in one run at the range's place and
      leaves the rest of the paragraph as it was, formatting included. */
  lemma RefilledRuns(runs: seq<Run>, s: nat, e: nat, v: string) returns (k: nat)
    requires IndexedFrom(runs, 0) && s < e <= |Texts(runs)|
    ensures RefilledAt(runs, Refilled(runs, s, e, v), s, e, v, k)
  {
    var cut := SplitAll(runs, [s, e]);
    CutAt(runs, s, e);
    k := MergedAt(cut, s, e, v);
    var out := Refilled(runs, s, e, v);
    var j :| 0 <= j < |cut| && cut[j].props == out[k].props;
    assert cut[j] in cut;
  }

  /** Refilling a range replaces that part of the text by the value. */
  lemma RefilledText(runs: seq<Run>, s: nat, e: nat, v: string)
    requires IndexedFrom(runs, 0) && s < e <= |Texts(runs)|
    ensures IndexedFrom(Refilled(runs, s, e, v), 0)
    ensures Texts(Refilled(runs, s, e, v)) == Texts(runs)[..s] + v + Texts(runs)[e..]
  {
    SplitAllPreserves(runs, [s, e], 0);
    SplitAllAligns(runs, [s, e], s);
    SplitAllAligns(runs, [s, e], e);
    MergeStep(SplitAll(runs, [s, e]), Texts(runs), s, e, v);
  }

  /** Every run of `out` carries the formatting of some run of `runs`. */
  ghost predicate PropsFrom(out: seq<Run>, runs: seq<Run>)
  {
    forall x :: x in out ==> exists j :: 0 <= j < |runs| && runs[j].props == x.props
  }

  /** Merging invents no formatting: every run after refilling carries the
      formatting of a run that was there before. */
  lemma RefilledProps(runs: seq<Run>, s: nat, e: nat, v: string)
    requires s < e
    ensures PropsFrom(Refilled(runs, s, e, v), runs)
  {
    var cut := SplitAll(runs, [s, e]);
    SplitAllStyled(runs, [s, e]);
    var m := Merged(cut, s, e, v, false);
    MergedProps(cut, s, e, v, false);
    var out := Reindexed(m, 0);
    ReindexedFacts(m, 0);
    forall x | x in out ensures exists j :: 0 <= j < |runs| && runs[j].props == x.props {
      var i :| 0 <= i < |out| && out[i] == x;
      assert m[i] in m;
      var c :| 0 <= c < |cut| && cut[c].props == m[i].props;
      assert cut[c] in cut;
    }
  }

  /** Where the field's token first occurs at `s`, one field refills the runs
      at the token and substitutes the value in the text. */
  lemma FillStepFound(runs: seq<Run>, f: Field, item: Item, useDisplayNames: bool,
                      formatDate: Value -> string, s: nat)
    requires FindFirst(Texts(runs), Token(Key(f, useDisplayNames))) == Some(s)
    ensures s + |Token(Key(f, useDisplayNames))| <= |Texts(runs)|
    ensures FillStep(runs, f, item, useDisplayNames, formatDate) ==
            Refilled(runs, s, s + |Token(Key(f, useDisplayNames))|, FieldString(item, f, formatDate))
    ensures Substitute(Texts(runs), f, item, useDisplayNames, formatDate) ==
            Texts(runs)[..s] + FieldString(item, f, formatDate) + Texts(runs)[s + |Token(Key(f, useDisplayNames))|..]
  {
    SubstituteAt(Texts(runs), f, item, useDisplayNames, formatDate, s);
  }

  /** The steps of `FillField` where the token is found: the token lies inside
      the text, cutting the runs at its ends leaves runs inside it, and
      merging those runs gives the runs after one field. */
  lemma FillStepParts(runs: seq<Run>, f: Field, item: Item, useDisplayNames: bool,
                      formatDate: Value -> string, start: nat, end: nat, value: string)
    requires IndexedFrom(runs, 0)
    requires FindFirst(Texts(runs), Token(Key(f, useDisplayNames))) == Some(start)
    requires end == start + |Token(Key(f, useDisplayNames))| && value == FieldString(item, f, formatDate)
    ensures start < end <= |Texts(runs)|
    ensures HasInside(SplitAll(runs, [start, end]), start, end)
    ensures FillStep(runs, f, item, useDisplayNames, formatDate) ==
            Reindexed(Merged(SplitAll(runs, [start, end]), start, end, value, false), 0)
  {
    var out := FillStep(runs, f, item, useDisplayNames, formatDate);
    FillStepIsRefilled(runs, f, item, useDisplayNames, formatDate, start, end, value, out);
    RefilledParts(runs, start, end);
  }

  /** Cutting the runs at the ends of a range of the text leaves runs inside
      the range. */
  lemma RefilledParts(runs: seq<Run>, s: nat, e: nat)
    requires IndexedFrom(runs, 0) && s < e <= |Texts(runs)|
    ensures HasInside(SplitAll(runs, [s, e]), s, e)
  {
    CutAt(runs, s, e);
    AlignedHasInside(SplitAll(runs, [s, e]), s, e);
  }

  /** Where the field's token does not occur, one field changes neither the
      runs nor the text. */
  lemma FillStepNone(runs: seq<Run>, f: Field, item: Item, useDisplayNames: bool,
                     formatDate: Value -> string)
    requires FindFirst(Texts(runs), Token(Key(f, useDisplayNames))).None?
    ensures FillStep(runs, f, item, useDisplayNames, formatDate) == runs
    ensures Substitute(Texts(runs), f, item, useDisplayNames, formatDate) == Texts(runs)
  {
  }

  /** A paragraph without the field's token keeps its runs. */
  lemma FillStepNoMatch(runs: seq<Run>, f: Field, item: Item, useDisplayNames: bool,
                        formatDate: Value -> string)
    requires NoMatch(Texts(runs), Token(Key(f, useDisplayNames)))
    ensures FillStep(runs, f, item, useDisplayNames, formatDate) == runs
  {
    FindFirstSound(Texts(runs), Token(Key(f, useDisplayNames)));
  }

  /** The runs after one field show the text after one substitution, with
      consistent offsets. */
  lemma FillStepText(runs: seq<Run>, f: Field, item: Item, useDisplayNames: bool,
                     formatDate: Value -> string)
    requires IndexedFrom(runs, 0)
    ensures IndexedFrom(FillStep(runs, f, item, useDisplayNames, formatDate), 0)
    ensures Texts(FillStep(runs, f, item, useDisplayNames, formatDate)) ==
            Substitute(Texts(runs), f, item, useDisplayNames, formatDate)
  {
    var found := FindFirst(Texts(runs), Token(Key(f, useDisplayNames)));
    if found.Some? {
      FillStepTextAt(runs, f, item, useDisplayNames, formatDate, found.value);
    } else {
      FillStepNone(runs, f, item, useDisplayNames, formatDate);
    }
  }

  /** `FillStepText` where the token is found at `s`. */
  lemma FillStepTextAt(runs: seq<Run>, f: Field, item: Item, useDisplayNames: bool,
                       formatDate: Value -> string, s: nat)
    requires IndexedFrom(runs, 0)
    requires FindFirst(Texts(runs), Token(Key(f, useDisplayNames))) == Some(s)
    ensures IndexedFrom(FillStep(runs, f, item, useDisplayNames, formatDate), 0)
    ensures Texts(FillStep(runs, f, item, useDisplayNames, formatDate)) ==
            Substitute(Texts(runs), f, item, useDisplayNames, formatDate)
  {
    var out := FillStep(runs, f, item, useDisplayNames, formatDate);
    var e, v := s + |Token(Key(f, useDisplayNames))|, FieldString(item, f, formatDate);
    FillStepFound(runs, f, item, useDisplayNames, formatDate, s);
    assert out == Refilled(runs, s, e, v);
    RefilledText(runs, s, e, v);
  }

  /** Every run after one field carries the formatting of a run that was
      there before. */
  lemma FillStepProps(runs: seq<Run>, f: Field, item: Item, useDisplayNames: bool,
                      formatDate: Value -> string)
    ensures PropsFrom(FillStep(runs, f, item, useDisplayNames, formatDate), runs)
  {
    var found := FindFirst(Texts(runs), Token(Key(f, useDisplayNames)));
    if found.Some? {
      FillStepPropsAt(runs, f, item, useDisplayNames, formatDate, found.value);
    } else {
      FillStepNone(runs, f, item, useDisplayNames, formatDate);
      forall x | x in runs ensures exists j :: 0 <= j < |runs| && runs[j].props == x.props {
        var j :| 0 <= j < |runs| && runs[j] == x;
      }
    }
  }

  /** `FillStepProps` where the token is found at `s`. */
  lemma FillStepPropsAt(runs: seq<Run>, f: Field, item: Item, useDisplayNames: bool,
                        formatDate: Value -> string, s: nat)
    requires FindFirst(Texts(runs), Token(Key(f, useDisplayNames))) == Some(s)
    ensures PropsFrom(FillStep(runs, f, item, useDisplayNames, formatDate), runs)
  {
    var out := FillStep(runs, f, item, useDisplayNames, formatDate);
    var e, v := s + |Token(Key(f, useDisplayNames))|, FieldString(item, f, formatDate);
    FillStepIsRefilled(runs, f, item, useDisplayNames, formatDate, s, e, v, out);
    RefilledProps(runs, s, e, v);
  }

  /** `FillStepFound` without the text. */
  lemma FillStepIsRefilled(runs: seq<Run>, f: Field, item: Item, useDisplayNames: bool,
                           formatDate: Value -> string, s: nat, e: nat, v: string, out: seq<Run>)
    requires FindFirst(Texts(runs), Token(Key(f, useDisplayNames))) == Some(s)
    requires e == s + |Token(Key(f, useDisplayNames))| && v == FieldString(item, f, formatDate)
    requires out == FillStep(runs, f, item, useDisplayNames, formatDate)
    ensures s < e <= |Texts(runs)|
    ensures out == Refilled(runs, s, e, v)
  {
    FillStepFound(runs, f, item, useDisplayNames, formatDate, s);
  }

  /** After all fields, the paragraph shows the filled text and its offsets
      are consistent. */
  lemma {:induction false} FillRunsText(runs: seq<Run>, fields: seq<Field>, item: Item,
                                        useDisplayNames: bool, formatDate: Value -> string)
    requires IndexedFrom(runs, 0)
    ensures IndexedFrom(FillRuns(runs, fields, item, useDisplayNames, formatDate), 0)
    ensures Texts(FillRuns(runs, fields, item, useDisplayNames, formatDate)) ==
            FillText(Texts(runs), fields, item, useDisplayNames, formatDate)
    decreases |fields|
  {
    if fields != [] {
      var next := FillStep(runs, fields[0], item, useDisplayNames, formatDate);
      FillStepText(runs, fields[0], item, useDisplayNames, formatDate);
      FillRunsText(next, fields[1..], item, useDisplayNames, formatDate);
    }
  }

  /** After all fields, every run carries the formatting of a run the
      paragraph had before. */
  lemma {:induction false} FillRunsProps(runs: seq<Run>, fields: seq<Field>, item: Item,
                                         useDisplayNames: bool, formatDate: Value -> string)
    ensures PropsFrom(FillRuns(runs, fields, item, useDisplayNames, formatDate), runs)
    decreases |fields|
  {
    if fields == [] {
      forall x | x in runs ensures exists j :: 0 <= j < |runs| && runs[j].props == x.props {
        var j :| 0 <= j < |runs| && runs[j] == x;
      }
    } else {
      var next := FillStep(runs, fields[0], item, useDisplayNames, formatDate);
      FillStepProps(runs, fields[0], item, useDisplayNames, formatDate);
      FillRunsProps(next, fields[1..], item, useDisplayNames, formatDate);
      forall x | x in FillRuns(runs, fields, item, useDisplayNames, formatDate)
        ensures exists j :: 0 <= j < |runs| && runs[j].props == x.props
      {
        var i :| 0 <= i < |next| && next[i].props == x.props;
        assert next[i] in next;
      }
    }
  }

  /** A paragraph holding none of the tokens keeps its runs. */
  lemma {:induction false} FillRunsUntouched(runs: seq<Run>, fields: seq<Field>, item: Item,
                                             useDisplayNames: bool, formatDate: Value -> string)
    requires NoTokens(Texts(runs), fields, useDisplayNames)
    ensures FillRuns(runs, fields, item, useDisplayNames, formatDate) == runs
    decreases |fields|
  {
    if fields != [] {
      assert fields[0] in fields;
      FindFirstSound(Texts(runs), Token(Key(fields[0], useDisplayNames)));
      assert FindFirst(Texts(runs), Token(Key(fields[0], useDisplayNames))).None?;
      assert FillStep(runs, fields[0], item, useDisplayNames, formatDate) == runs;
      FillRunsUntouched(runs, fields[1..], item, useDisplayNames, formatDate);
    }
  }

  /** Unfolds `FillRuns` at the `k`-th field. */
  lemma FillRunsStep(runs: seq<Run>, fields: seq<Field>, k: nat, item: Item,
                     useDisplayNames: bool, formatDate: Value -> string)
    requires k < |fields|
    ensures FillRuns(runs, fields[k..], item, useDisplayNames, formatDate) ==
            FillRuns(FillStep(runs, fields[k], item, useDisplayNames, formatDate),
                     fields[k + 1..], item, useDisplayNames, formatDate)
  {
    assert fields[k..][0] == fields[k] && fields[k..][1..] == fields[k + 1..];
  }

  /** The token `{Name}` split over the runs "Hello {Na" and "me}!": filling
      it keeps "Hello " and "!" in runs formatted as before and puts "Alice"
      in one run formatted like the first. */
  lemma FillRunsExample(p1: seq<Property>, p2: seq<Property>, formatDate: Value -> string)
    ensures FillRuns([Run("Hello {Na", p1, false, 0), Run("me}!", p2, false, 9)],
                     [Field("Name", "Full name", "Text")], map["Name" := Str("Alice")], false, formatDate) ==
            [Run("Hello ", p1, true, 0), Run("Alice", p1, false, 6), Run("!", p2, false, 11)]
  {
    var runs := [Run("Hello {Na", p1, false, 0), Run("me}!", p2, false, 9)];
    var f := Field("Name", "Full name", "Text");
    var item := map["Name" := Str("Alice")];
    assert [f][1..] == [];
    assert FillRuns(runs, [f], item, false, formatDate) == FillStep(runs, f, item, false, formatDate);
    ExampleFound(p1, p2);
    assert Token(Key(f, false)) == "{Name}";
    FieldStringExample(item, f, formatDate);
    FillStepFound(runs, f, item, false, formatDate, 6);
    ExampleRefilled(p1, p2);
  }

  /** In the example, the token starts at offset 6 of the paragraph's text. */
  lemma ExampleFound(p1: seq<Property>, p2: seq<Property>)
    ensures FindFirst(Texts([Run("Hello {Na", p1, false, 0), Run("me}!", p2, false, 9)]), "{Name}") == Some(6)
  {
    var a, b := Run("Hello {Na", p1, false, 0), Run("me}!", p2, false, 9);
    TextsCons([b], b, []);
    TextsCons([a, b], a, [b]);
    var text := Texts([a, b]);
    assert text == "Hello {Na" + "me}!" == "Hello {Name}!";
    var tok := "{Name}";
    assert MatchAt(text, tok, 6);
    forall j: nat | j < 6 ensures !MatchAt(text, tok, j) {
      assert text[j..j + |tok|][0] == text[j] != tok[0];
    }
    FindFirstAt(text, tok, 6);
  }

  /** In the example, the runs are cut at 6 and 12, the two runs in between
      merged into one holding "Alice", and the offsets recomputed. */
  lemma ExampleRefilled(p1: seq<Property>, p2: seq<Property>)
    ensures Refilled([Run("Hello {Na", p1, false, 0), Run("me}!", p2, false, 9)], 6, 12, "Alice") ==
            [Run("Hello ", p1, true, 0), Run("Alice", p1, false, 6), Run("!", p2, false, 11)]
  {
    var a, b := Run("Hello {Na", p1, false, 0), Run("me}!", p2, false, 9);
    var r0, r1, r2, r3 := Run("Hello ", p1, true, 0), Run("{Na", p1, false, 6),
                          Run("me}", p2, false, 9), Run("!", p2, false, 12);
    ExampleCut(p1, p2);
    MergedDropsSecond(r0, r1, r2, r3, 6, 12, "Alice");
    var m := [r0, r1.(text := "Alice"), r3];
    assert m[1..] == [r1.(text := "Alice"), r3] && m[1..][1..] == [r3] && [r3][1..] == [];
    assert Reindexed([r3], 11) == [r3.(index := 11)] + Reindexed([], 12);
    assert Reindexed(m[1..], 6) == [r1.(text := "Alice")] + Reindexed([r3], 11);
    assert Reindexed(m, 0) == [r0] + Reindexed(m[1..], 6);
    assert Refilled([a, b], 6, 12, "Alice") == Reindexed(m, 0);
  }

  /** In the example, cutting at 6 and 12 splits each run in two. */
  lemma ExampleCut(p1: seq<Property>, p2: seq<Property>)
    ensures SplitAll([Run("Hello {Na", p1, false, 0), Run("me}!", p2, false, 9)], [6, 12]) ==
            [Run("Hello ", p1, true, 0), Run("{Na", p1, false, 6), Run("me}", p2, false, 9), Run("!", p2, false, 12)]
  {
    var a, b := Run("Hello {Na", p1, false, 0), Run("me}!", p2, false, 9);
    ExampleCutFirst(p1);
    ExampleCutSecond(p2);
    SplitAllPair(a, b, [6, 12]);
  }

  /** The first run of the example is cut at the token's start. */
  lemma ExampleCutFirst(p1: seq<Property>)
    ensures SplitOne(Run("Hello {Na", p1, false, 0), [6, 12]) ==
            [Run("Hello ", p1, true, 0), Run("{Na", p1, false, 6)]
  {
    var a := Run("Hello {Na", p1, false, 0);
    assert [6, 12][1..] == [12] && [12][1..] == [];
    assert LocalCuts(a, []) == [];
    assert LocalCuts(a, [12]) == [];
    assert LocalCuts(a, [6, 12]) == [6] + LocalCuts(a, [12]);
    SplitOneAt(a, [6, 12], 6);
    assert a.text[0..6] == "Hello " && a.text[6..9] == "{Na";
    assert IsSpace("Hello "[5]) && !IsSpace('{') && !IsSpace('a');
    assert Fragment(a, 0, 6) == Run("Hello ", p1, true, 0);
    assert Fragment(a, 6, 9) == Run("{Na", p1, false, 6);
  }

  /** The second run of the example is cut at the token's end. */
  lemma ExampleCutSecond(p2: seq<Property>)
    ensures SplitOne(Run("me}!", p2, false, 9), [6, 12]) ==
            [Run("me}", p2, false, 9), Run("!", p2, false, 12)]
  {
    var b := Run("me}!", p2, false, 9);
    assert [6, 12][1..] == [12] && [12][1..] == [];
    assert LocalCuts(b, []) == [];
    assert LocalCuts(b, [12]) == [3] + LocalCuts(b, []);
    assert LocalCuts(b, [6, 12]) == LocalCuts(b, [12]);
    SplitOneAt(b, [6, 12], 3);
    assert b.text[0..3] == "me}" && b.text[3..4] == "!";
    assert !IsSpace('m') && !IsSpace('}') && !IsSpace('!');
    assert Fragment(b, 0, 3) == Run("me}", p2, false, 9);
    assert Fragment(b, 3, 4) == Run("!", p2, false, 12);
  }

  // ---------------------------------------------------------------------------
  // Grouping the runs of the document by parent
  // ---------------------------------------------------------------------------

  /** A `w:r` element of the document with its parent element, in document
      order (`getElementsByTagName("w:r")`). */
  datatype RunElem = RunElem(parent: ParentNode, node: Node)

  /** The runs found under one parent element, in document order. */
  datatype Group = Group(parent: ParentNode, items: seq<Node>)

  /** A parent element with its runs after filling. */
  datatype Paragraph = Paragraph(parent: ParentNode, runs: seq<Run>)

  /** The ids of the parents, each once, in order of first appearance. */
  function ParentIds(doc: seq<RunElem>): seq<nat>
  {
    if doc == [] then []
    else
      var ids := ParentIds(doc[..|doc| - 1]);
      if doc[|doc| - 1].parent.id in ids then ids else ids + [doc[|doc| - 1].parent.id]
  }

  /** The runs whose parent has the given id, in document order. */
  function RunsOf(doc: seq<RunElem>, id: nat): seq<Node>
  {
    if doc == [] then []
    else RunsOf(doc[..|doc| - 1], id) + (if doc[|doc| - 1].parent.id == id then [doc[|doc| - 1].node] else [])
  }

  /** The parent ids are listed exactly once each, and every run's parent is
      among them. */
  lemma {:induction false} ParentIdsFacts(doc: seq<RunElem>)
    ensures forall i, j :: 0 <= i < j < |ParentIds(doc)| ==> ParentIds(doc)[i] != ParentIds(doc)[j]
    ensures forall id :: id in ParentIds(doc) <==> exists k :: 0 <= k < |doc| && doc[k].parent.id == id
  {
    if doc != [] {
      var front := doc[..|doc| - 1];
      ParentIdsFacts(front);
      forall id | (exists k :: 0 <= k < |doc| && doc[k].parent.id == id)
        ensures id in ParentIds(doc)
      {
        var k :| 0 <= k < |doc| && doc[k].parent.id == id;
        if k < |doc| - 1 {
          assert front[k] == doc[k];
        }
      }
      forall id | id in ParentIds(doc)
        ensures exists k :: 0 <= k < |doc| && doc[k].parent.id == id
      {
        if id in ParentIds(front) {
          var k :| 0 <= k < |front| && front[k].parent.id == id;
          assert doc[k] == front[k];
        } else {
          assert doc[|doc| - 1].parent.id == id;
        }
      }
    }
  }

  /** A parent with no run so far has no runs listed. */
  lemma {:induction false} RunsOfAbsent(doc: seq<RunElem>, id: nat)
    requires forall k :: 0 <= k < |doc| ==> doc[k].parent.id != id
    ensures RunsOf(doc, id) == []
  {
    if doc != [] {
      RunsOfAbsent(doc[..|doc| - 1], id);
    }
  }

  /** `groups` is what the grouping makes of the first `i` runs. */
  ghost predicate GroupedUpTo(groups: seq<Group>, doc: seq<RunElem>, i: nat)
    requires i <= |doc|
  {
    var prefix := doc[..i];
    |groups| == |ParentIds(prefix)| &&
    forall g :: 0 <= g < |groups| ==>
      groups[g].parent.id == ParentIds(prefix)[g] &&
      groups[g].items == RunsOf(prefix, groups[g].parent.id) &&
      exists k :: 0 <= k < i && doc[k].parent == groups[g].parent
  }

  /** Files the run `e` under the group at position `j`, or under a new group
      when `j` is past the end. */
  function AddRun(groups: seq<Group>, j: nat, e: RunElem): seq<Group>
    requires j <= |groups|
  {
    if j == |groups| then groups + [Group(e.parent, [e.node])]
    else groups[j := groups[j].(items := groups[j].items + [e.node])]
  }

  lemma AddRunNew(groups: seq<Group>, doc: seq<RunElem>, i: nat)
    requires i < |doc| && GroupedUpTo(groups, doc, i)
    requires forall g :: 0 <= g < |groups| ==> groups[g].parent.id != doc[i].parent.id
    ensures GroupedUpTo(AddRun(groups, |groups|, doc[i]), doc, i + 1)
  {
    var e, before, after := doc[i], doc[..i], doc[..i + 1];
    assert after[..i] == before && after[i] == e && after[..|after| - 1] == before;
    ParentIdsFacts(before);
    assert e.parent.id !in ParentIds(before);
    RunsOfAbsent(before, e.parent.id);
    var out := AddRun(groups, |groups|, e);
    forall g | 0 <= g < |out|
      ensures out[g].parent.id == ParentIds(after)[g]
      ensures out[g].items == RunsOf(after, out[g].parent.id)
      ensures exists k :: 0 <= k < i + 1 && doc[k].parent == out[g].parent
    {
      if g < |groups| {
        var k :| 0 <= k < i && doc[k].parent == groups[g].parent;
        assert doc[k].parent == out[g].parent;
      } else {
        assert doc[i].parent == out[g].parent;
      }
    }
  }

  lemma AddRunExisting(groups: seq<Group>, doc: seq<RunElem>, i: nat, j: nat)
    requires i < |doc| && GroupedUpTo(groups, doc, i)
    requires j < |groups| && groups[j].parent.id == doc[i].parent.id
    ensures GroupedUpTo(AddRun(groups, j, doc[i]), doc, i + 1)
  {
    var e, before, after := doc[i], doc[..i], doc[..i + 1];
    assert after[..i] == before && after[i] == e && after[..|after| - 1] == before;
    ParentIdsFacts(before);
    assert ParentIds(before)[j] in ParentIds(before);
    assert ParentIds(after) == ParentIds(before);
    var out := AddRun(groups, j, e);
    forall g | 0 <= g < |out|
      ensures out[g].parent.id == ParentIds(after)[g]
      ensures out[g].items == RunsOf(after, out[g].parent.id)
      ensures exists k :: 0 <= k < i + 1 && doc[k].parent == out[g].parent
    {
      var k :| 0 <= k < i && doc[k].parent == groups[g].parent;
      assert doc[k].parent == out[g].parent;
    }
  }

  /** The `reduce` of `replace`: for each run, the group of its parent is
      looked up among the groups made so far, and made when there is none;
      the run is appended to it. */
  method GroupByParent(doc: seq<RunElem>) returns (groups: seq<Group>)
    ensures |groups| == |ParentIds(doc)|
    ensures forall g :: 0 <= g < |groups| ==>
              groups[g].parent.id == ParentIds(doc)[g] &&
              groups[g].items == RunsOf(doc, groups[g].parent.id) &&
              exists k :: 0 <= k < |doc| && doc[k].parent == groups[g].parent
  {
    groups := [];
    var i := 0;
    while i < |doc|
      invariant 0 <= i <= |doc| && GroupedUpTo(groups, doc, i)
    {
      var e := doc[i];
      var j := 0;
      while j < |groups| && groups[j].parent.id != e.parent.id
        invariant 0 <= j <= |groups|
        invariant forall g :: 0 <= g < j ==> groups[g].parent.id != e.parent.id
      {
        j := j + 1;
      }
      if j == |groups| {
        AddRunNew(groups, doc, i);
      } else {
        AddRunExisting(groups, doc, i, j);
      }
      groups := AddRun(groups, j, e);
      i := i + 1;
    }
    assert doc[..i] == doc;
  }

  // ---------------------------------------------------------------------------
  // replace
  // ---------------------------------------------------------------------------

  /** The runs of a group as the collection reads them, offsets included. */
  function InitialRuns(items: seq<Node>): seq<Run>
  {
    Reindexed(FromNodes(items), 0)
  }

  /** What `replace` makes of one group: the runs of the group, filled. */
  ghost predicate Filled(p: Paragraph, group: Group, fields: seq<Field>, item: Item,
                         useDisplayNames: bool, formatDate: Value -> string)
  {
    p.parent == group.parent &&
    p.runs == FillRuns(InitialRuns(group.items), fields, item, useDisplayNames, formatDate)
  }

  /** A filled group shows the filled text of the group with consistent
      offsets, takes all its formatting from the group's runs, and is left as
      it was when it holds none of the tokens. */
  lemma FilledText(p: Paragraph, group: Group, fields: seq<Field>, item: Item,
                   useDisplayNames: bool, formatDate: Value -> string)
    requires Filled(p, group, fields, item, useDisplayNames, formatDate)
    ensures var before := InitialRuns(group.items);
      IndexedFrom(p.runs, 0) &&
      Texts(p.runs) == FillText(Texts(before), fields, item, useDisplayNames, formatDate) &&
      (forall x :: x in p.runs ==> exists j :: 0 <= j < |before| && before[j].props == x.props) &&
      (NoTokens(Texts(before), fields, useDisplayNames) ==> p.runs == before)
  {
    var before := InitialRuns(group.items);
    ReindexedFacts(FromNodes(group.items), 0);
    FillRunsText(before, fields, item, useDisplayNames, formatDate);
    FillRunsProps(before, fields, item, useDisplayNames, formatDate);
    if NoTokens(Texts(before), fields, useDisplayNames) {
      FillRunsUntouched(before, fields, item, useDisplayNames, formatDate);
    }
  }

  lemma FilledAppend(out: seq<Paragraph>, groups: seq<Group>, p: Paragraph, fields: seq<Field>, item: Item,
                     useDisplayNames: bool, formatDate: Value -> string)
    requires |out| < |groups|
    requires forall h :: 0 <= h < |out| ==> Filled(out[h], groups[h], fields, item, useDisplayNames, formatDate)
    requires Filled(p, groups[|out|], fields, item, useDisplayNames, formatDate)
    ensures forall h :: 0 <= h < |out| + 1 ==>
              Filled((out + [p])[h], groups[h], fields, item, useDisplayNames, formatDate)
  {
    forall h | 0 <= h < |out| + 1
      ensures Filled((out + [p])[h], groups[h], fields, item, useDisplayNames, formatDate)
    {
      if h < |out| {
        assert (out + [p])[h] == out[h];
      }
    }
  }

  /** `replace`: the runs are grouped by parent, and each group is filled.
      The result lists each parent once, in order of first appearance, with
      its runs after filling. */
  method Replace(doc: seq<RunElem>, fields: seq<Field>, item: Item, useDisplayNames: bool,
                 formatDate: Value -> string) returns (out: seq<Paragraph>)
    ensures |out| == |ParentIds(doc)|
    ensures forall g :: 0 <= g < |out| ==>
              out[g].parent.id == ParentIds(doc)[g] &&
              Filled(out[g], Group(out[g].parent, RunsOf(doc, out[g].parent.id)),
                     fields, item, useDisplayNames, formatDate)
  {
    var groups := GroupByParent(doc);
    out := [];
    var g := 0;
    while g < |groups|
      invariant 0 <= g <= |groups| && |out| == g
      invariant forall h :: 0 <= h < g ==>
                  Filled(out[h], groups[h], fields, item, useDisplayNames, formatDate)
    {
      var group := groups[g];
      var coll := new RunCollection(group.parent, Some(group.items));
      FillCollection(coll, fields, item, useDisplayNames, formatDate);
      var p := Paragraph(coll.parent, coll.nodes);
      FilledAppend(out, groups, p, fields, item, useDisplayNames, formatDate);
      out := out + [p];
      g := g + 1;
    }
  }
}
