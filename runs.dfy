/** A formatting run of a WordprocessingML document (`w:r`) and the way one
    run is cut into several runs at given offsets of its text (class `WRun`). */
module Runs {

  datatype Option<T> = None | Some(value: T)

  /** The part of the XML tree the engine looks at: elements with their
      attributes and children, and text leaves. */
  datatype Attr = Attr(name: string, value: string)
  datatype Node =
    | Element(name: string, attrs: seq<Attr>, children: seq<Node>)
    | Text(data: string)

  /** One formatting descriptor of a run (class `WRunProperty`): the element's
      name and its attribute values, in attribute order. */
  datatype Property = Property(name: string, attrs: seq<string>)

  /** A run: its visible text, its formatting descriptors, whether its text
      leaf carries `xml:space="preserve"`, and its `collectionIndex`, the offset
      of its text in the text of its paragraph. */
  datatype Run = Run(text: string, props: seq<Property>, preserve: bool, index: int)

  /** The concatenated text of a sequence of runs. */
  function Texts(rs: seq<Run>): string
  {
    if rs == [] then "" else rs[0].text + Texts(rs[1..])
  }

  lemma TakeConcat(a: string, b: string, k: int)
    requires |a| <= k <= |a| + |b|
    ensures (a + b)[..k] == a + b[..k - |a|]
  {
  }

  lemma DropConcat(a: string, b: string, k: int)
    requires |a| <= k <= |a| + |b|
    ensures (a + b)[k..] == b[k - |a|..]
  {
  }

  lemma {:induction false} TextsAppend(a: seq<Run>, b: seq<Run>)
    ensures Texts(a + b) == Texts(a) + Texts(b)
  {
    if a == [] {
      assert a + b == b;
    } else {
      assert (a + b)[1..] == a[1..] + b;
      TextsAppend(a[1..], b);
    }
  }

  /** A character of a paragraph together with the formatting of the run that
      holds it. */
  datatype StyledChar = StyledChar(c: char, props: seq<Property>)

  /** Every character of `t` with the formatting `p`. */
  function Paint(t: string, p: seq<Property>): (out: seq<StyledChar>)
    ensures |out| == |t| && forall i :: 0 <= i < |t| ==> out[i] == StyledChar(t[i], p)
  {
    if t == [] then [] else [StyledChar(t[0], p)] + Paint(t[1..], p)
  }

  /** The text of a sequence of runs, each character with its run's formatting:
      what a reader of the document sees, whatever the run boundaries. */
  function Styled(rs: seq<Run>): (out: seq<StyledChar>)
    ensures |out| == |Texts(rs)|
  {
    if rs == [] then [] else Paint(rs[0].text, rs[0].props) + Styled(rs[1..])
  }

  lemma {:induction false} StyledAppend(a: seq<Run>, b: seq<Run>)
    ensures Styled(a + b) == Styled(a) + Styled(b)
  {
    if a == [] {
      assert a + b == b;
    } else {
      assert (a + b)[1..] == a[1..] + b;
      StyledAppend(a[1..], b);
    }
  }

  lemma PaintAppend(x: string, y: string, p: seq<Property>)
    ensures Paint(x + y, p) == Paint(x, p) + Paint(y, p)
  {
  }

  /** Runs with the same texts and formatting, in the same order, show the
      same paragraph, whatever their offsets and markers. */
  lemma {:induction false} SameContent(a: seq<Run>, b: seq<Run>)
    requires |a| == |b|
    requires forall i :: 0 <= i < |a| ==> a[i].text == b[i].text && a[i].props == b[i].props
    ensures Texts(a) == Texts(b) && Styled(a) == Styled(b)
  {
    if a != [] {
      assert forall i :: 0 <= i < |a[1..]| ==> a[1..][i] == a[i + 1] && b[1..][i] == b[i + 1];
      SameContent(a[1..], b[1..]);
    }
  }

  /** The same, for the runs before and after position `k` as well. */
  lemma SameContentAround(a: seq<Run>, b: seq<Run>, k: nat)
    requires |a| == |b| && k < |a|
    requires forall i :: 0 <= i < |a| ==> a[i].text == b[i].text && a[i].props == b[i].props
    ensures Texts(a) == Texts(b) && Styled(a) == Styled(b)
    ensures Texts(a[..k]) == Texts(b[..k]) && Texts(a[k + 1..]) == Texts(b[k + 1..])
  {
    SameContent(a, b);
    SameContent(a[..k], b[..k]);
    SameContent(a[k + 1..], b[k + 1..]);
  }

  // ---------------------------------------------------------------------------
  // Reading a run element

  function AttrValues(attrs: seq<Attr>): seq<string>
  {
    if attrs == [] then [] else [attrs[0].value] + AttrValues(attrs[1..])
  }

  /** `new WRunProperty(node)` for an element. */
  function PropertyOf(n: Node): Property
    requires n.Element?
  {
    Property(n.name, AttrValues(n.attrs))
  }

  /** An element's descriptor holds its name and each attribute's value, in
      attribute order. */
  lemma {:induction false} PropertyOfElement(n: Node)
    requires n.Element?
    ensures PropertyOf(n).name == n.name && |PropertyOf(n).attrs| == |n.attrs|
    ensures forall i :: 0 <= i < |n.attrs| ==> PropertyOf(n).attrs[i] == n.attrs[i].value
  {
    AttrValuesFacts(n.attrs);
  }

  lemma {:induction false} AttrValuesFacts(attrs: seq<Attr>)
    ensures |AttrValues(attrs)| == |attrs|
    ensures forall i :: 0 <= i < |attrs| ==> AttrValues(attrs)[i] == attrs[i].value
  {
    if attrs != [] {
      AttrValuesFacts(attrs[1..]);
      assert forall i :: 0 < i < |attrs| ==> attrs[i] == attrs[1..][i - 1];
    }
  }

  /** The descriptors of the children of a `w:rPr`, in order. Only element
      children give one: the source would build one from a text child too
      (whitespace between the elements), and `node.attributes` of a text node
      is undefined, so it throws there; the model skips such children. */
  function PropertiesOf(ns: seq<Node>): seq<Property>
  {
    if ns == [] then []
    else (if ns[0].Element? then [PropertyOf(ns[0])] else []) + PropertiesOf(ns[1..])
  }

  /** When every child is an element, there is one descriptor per child, in
      order. */
  lemma {:induction false} PropertiesOfElements(ns: seq<Node>)
    requires forall i :: 0 <= i < |ns| ==> ns[i].Element?
    ensures |PropertiesOf(ns)| == |ns|
    ensures forall i :: 0 <= i < |ns| ==> PropertiesOf(ns)[i] == PropertyOf(ns[i])
  {
    if ns != [] {
      assert forall i :: 0 <= i < |ns[1..]| ==> ns[1..][i] == ns[i + 1];
      PropertiesOfElements(ns[1..]);
    }
  }

  /** `textContent` of a `w:t` element: the data of its text leaves. */
  function LeafText(ns: seq<Node>): string
  {
    if ns == [] then ""
    else (if ns[0].Text? then ns[0].data else "") + LeafText(ns[1..])
  }

  predicate IsNamed(n: Node, name: string)
  {
    n.Element? && n.name == name
  }

  /** The text of a run: the contents of its `w:t` children, in order. */
  function RunText(ns: seq<Node>): string
  {
    if ns == [] then ""
    else (if IsNamed(ns[0], "w:t") then LeafText(ns[0].children) else "") + RunText(ns[1..])
  }

  /** The properties of a run: the children of every `w:rPr` child, flattened. */
  function RunProps(ns: seq<Node>): seq<Property>
  {
    if ns == [] then []
    else (if IsNamed(ns[0], "w:rPr") then PropertiesOf(ns[0].children) else []) + RunProps(ns[1..])
  }

  predicate HasPreserve(attrs: seq<Attr>)
  {
    exists i :: 0 <= i < |attrs| && attrs[i] == Attr("xml:space", "preserve")
  }

  /** Whether the first `w:t` child carries the whitespace-preservation marker. */
  predicate RunPreserve(ns: seq<Node>)
  {
    if ns == [] then false
    else if IsNamed(ns[0], "w:t") then HasPreserve(ns[0].attrs)
    else RunPreserve(ns[1..])
  }

  function ChildrenOf(n: Node): seq<Node>
  {
    if n.Element? then n.children else []
  }

  /** The `WRun` constructor; `collectionIndex` is set by the collection. */
  function FromNode(n: Node): Run
  {
    Run(RunText(ChildrenOf(n)), RunProps(ChildrenOf(n)), RunPreserve(ChildrenOf(n)), 0)
  }

  /** The element has exactly one `w:t` child. The source writes a cut-off
      fragment into the first `w:t` of a cloned run only, so it agrees with this
      model on such runs. */
  predicate SingleTextRun(n: Node)
  {
    n.Element? &&
    exists k :: 0 <= k < |n.children| && IsNamed(n.children[k], "w:t") &&
      forall j :: 0 <= j < |n.children| && j != k ==> !IsNamed(n.children[j], "w:t")
  }

  lemma {:induction false} RunTextSingle(ns: seq<Node>, k: nat)
    requires k < |ns| && IsNamed(ns[k], "w:t")
    requires forall j :: 0 <= j < |ns| && j != k ==> !IsNamed(ns[j], "w:t")
    ensures RunText(ns) == LeafText(ns[k].children)
    ensures RunPreserve(ns) == HasPreserve(ns[k].attrs)
  {
    if k == 0 {
      RunTextNone(ns[1..]);
    } else {
      forall j | 0 <= j < |ns[1..]| && j != k - 1 ensures !IsNamed(ns[1..][j], "w:t") {
        assert ns[1..][j] == ns[j + 1];
      }
      RunTextSingle(ns[1..], k - 1);
    }
  }

  lemma {:induction false} RunTextNone(ns: seq<Node>)
    requires forall j :: 0 <= j < |ns| ==> !IsNamed(ns[j], "w:t")
    ensures RunText(ns) == ""
  {
    if ns != [] {
      RunTextNone(ns[1..]);
    }
  }

  /** A run element with a single `w:t` child reads as that leaf's text and
      marker; its properties are those of its `w:rPr` children. */
  lemma FromNodeSingle(n: Node) returns (k: nat)
    requires SingleTextRun(n)
    ensures k < |n.children| && IsNamed(n.children[k], "w:t")
    ensures FromNode(n).text == LeafText(n.children[k].children)
    ensures FromNode(n).preserve == HasPreserve(n.children[k].attrs)
    ensures FromNode(n).props == RunProps(n.children) && FromNode(n).index == 0
  {
    k :| 0 <= k < |n.children| && IsNamed(n.children[k], "w:t") &&
      forall j :: 0 <= j < |n.children| && j != k ==> !IsNamed(n.children[j], "w:t");
    RunTextSingle(n.children, k);
  }

  // ---------------------------------------------------------------------------
  // Whitespace preservation

  /** The characters matched by the ECMAScript class `\s`. */
  predicate IsSpace(c: char)
  {
    c == ' ' || ('\t' <= c <= '\r') || c == '\U{A0}' || c == '\U{1680}' ||
    ('\U{2000}' <= c <= '\U{200A}') || c == '\U{2028}' || c == '\U{2029}' ||
    c == '\U{202F}' || c == '\U{205F}' || c == '\U{3000}' || c == '\U{FEFF}'
  }

  /** `/\s/.test(s.charAt(0)) || /\s/.test(s.charAt(s.length - 1))`;
      `charAt` of an empty string is the empty string, which `\s` does not match. */
  predicate EdgeSpace(s: string)
  {
    |s| > 0 && (IsSpace(s[0]) || IsSpace(s[|s| - 1]))
  }

  // ---------------------------------------------------------------------------
  // Splitting one run

  predicate Increasing(s: seq<int>)
  {
    forall i, j :: 0 <= i < j < |s| ==> s[i] < s[j]
  }

  predicate Within(s: seq<int>, lo: int, hi: int)
  {
    forall i :: 0 <= i < |s| ==> lo < s[i] < hi
  }

  /** Cut points in ascending order, strictly between `from` and `n`. */
  predicate ValidCuts(cuts: seq<int>, from: int, n: int)
  {
    0 <= from <= n && Increasing(cuts) && Within(cuts, from, n)
  }

  /** The run that carries `r.text[from..to]`: a clone of `r`'s properties,
      the marker added when the fragment starts or ends with whitespace, and
      the offset of the fragment. */
  function Fragment(r: Run, from: int, to: int): Run
    requires 0 <= from <= to <= |r.text|
  {
    var t := r.text[from..to];
    Run(t, r.props, r.preserve || EdgeSpace(t), r.index + from)
  }

  /** The runs that cutting `r.text[from..]` at `cuts` yields, left to right. */
  function Pieces(r: Run, from: int, cuts: seq<int>): seq<Run>
    requires ValidCuts(cuts, from, |r.text|)
    decreases |cuts|
  {
    if cuts == [] then [Fragment(r, from, |r.text|)]
    else [Fragment(r, from, cuts[0])] + Pieces(r, cuts[0], cuts[1..])
  }

  /** The pieces spell the cut text, one more piece than there are cuts. */
  lemma {:induction false} PiecesText(r: Run, from: int, cuts: seq<int>)
    requires ValidCuts(cuts, from, |r.text|)
    ensures |Pieces(r, from, cuts)| == |cuts| + 1
    ensures Texts(Pieces(r, from, cuts)) == r.text[from..]
    decreases |cuts|
  {
    if cuts == [] {
      assert Pieces(r, from, cuts)[1..] == [];
    } else {
      var ps := Pieces(r, from, cuts);
      PiecesText(r, cuts[0], cuts[1..]);
      assert ps[1..] == Pieces(r, cuts[0], cuts[1..]);
      assert r.text[from..] == r.text[from..cuts[0]] + r.text[cuts[0]..];
    }
  }

  /** Cutting keeps the formatting of every character: the pieces show the cut
      text with the run's properties throughout. */
  lemma {:induction false} PiecesStyled(r: Run, from: int, cuts: seq<int>)
    requires ValidCuts(cuts, from, |r.text|)
    ensures Styled(Pieces(r, from, cuts)) == Paint(r.text[from..], r.props)
    decreases |cuts|
  {
    var ps := Pieces(r, from, cuts);
    if cuts == [] {
      assert ps[1..] == [];
    } else {
      var f, tail := Fragment(r, from, cuts[0]), Pieces(r, cuts[0], cuts[1..]);
      assert ps[0] == f && ps[1..] == tail;
      PiecesStyled(r, cuts[0], cuts[1..]);
      assert Styled(ps) == Paint(f.text, r.props) + Styled(tail);
      SliceJoin(r.text, from, cuts[0]);
      PaintAppend(f.text, r.text[cuts[0]..], r.props);
    }
  }

  /** Two adjacent slices make up the longer one. */
  lemma SliceJoin<T>(x: seq<T>, i: int, j: int)
    requires 0 <= i <= j <= |x|
    ensures x[i..j] + x[j..] == x[i..]
  {
  }

  /** Every piece carries the run's properties. */
  lemma {:induction false} PiecesProps(r: Run, from: int, cuts: seq<int>)
    requires ValidCuts(cuts, from, |r.text|)
    ensures forall k :: 0 <= k < |Pieces(r, from, cuts)| ==> Pieces(r, from, cuts)[k].props == r.props
    decreases |cuts|
  {
    var ps := Pieces(r, from, cuts);
    if cuts != [] {
      PiecesProps(r, cuts[0], cuts[1..]);
      assert ps[1..] == Pieces(r, cuts[0], cuts[1..]);
      forall k | 0 < k < |ps| ensures ps[k].props == r.props {
        assert ps[k] == ps[1..][k - 1];
      }
    }
  }

  /** Piece k + 1 starts at cut k: its offset is the run's offset plus the cut,
      and every piece carries the run's properties. */
  lemma {:induction false} PiecesAt(r: Run, from: int, cuts: seq<int>, k: nat)
    requires ValidCuts(cuts, from, |r.text|) && k < |cuts|
    ensures |Pieces(r, from, cuts)| == |cuts| + 1
    ensures Pieces(r, from, cuts)[k + 1].index == r.index + cuts[k]
    ensures Pieces(r, from, cuts)[k + 1].text ==
              r.text[cuts[k]..if k + 1 < |cuts| then cuts[k + 1] else |r.text|]
    ensures Pieces(r, from, cuts)[k + 1].props == r.props
    decreases |cuts|
  {
    PiecesText(r, from, cuts);
    if k > 0 {
      PiecesAt(r, cuts[0], cuts[1..], k - 1);
    } else if |cuts| > 1 {
      PiecesText(r, cuts[0], cuts[1..]);
    }
  }

  /** `WRun.split`, processing the cut points from the right: each step clones
      the run for the suffix at the cut, and the run itself keeps what is left of
      the first cut. Returns the shrunk run and the new runs left to right.

      The source orders the cuts with `indexes.sort().reverse()`, which compares
      numbers as strings; this model takes the cuts in ascending numeric order
      and walks them from the right, as intended (see the findings module). */
  method SplitRun(r: Run, cuts: seq<int>) returns (head: Run, tail: seq<Run>)
    requires ValidCuts(cuts, 0, |r.text|)
    ensures [head] + tail == Pieces(r, 0, cuts)
    ensures |tail| == |cuts|
    ensures head.text == r.text[..if cuts == [] then |r.text| else cuts[0]]
    ensures head.index == r.index && head.props == r.props
    ensures head.text + Texts(tail) == r.text
    ensures forall j :: 0 <= j < |tail| ==>
              tail[j].index == r.index + cuts[j] && tail[j].props == r.props
  {
    var current := r.text;
    tail := [];
    var i := |cuts|;
    while i > 0
      invariant 0 <= i <= |cuts|
      invariant current == r.text[..if i < |cuts| then cuts[i] else |r.text|]
      invariant i < |cuts| ==> tail == Pieces(r, cuts[i], cuts[i + 1..])
      invariant i == |cuts| ==> tail == []
    {
      i := i - 1;
      var cut := cuts[i];
      var left, right := current[..cut], current[cut..];
      assert right == r.text[cut..if i + 1 < |cuts| then cuts[i + 1] else |r.text|];
      var fragment := Run(right, r.props, r.preserve || EdgeSpace(right), r.index + cut);
      assert i + 1 < |cuts| ==> cuts[i + 1..] == [cuts[i + 1]] + cuts[i + 2..];
      tail := [fragment] + tail;
      current := left;
    }
    head := Run(current, r.props, r.preserve || EdgeSpace(current), r.index);
    assert cuts != [] ==> cuts == [cuts[0]] + cuts[1..];
    SplitFacts(r, cuts, head, tail);
  }

  /** What `[head] + tail == Pieces(r, 0, cuts)` says about the two parts. */
  lemma SplitFacts(r: Run, cuts: seq<int>, head: Run, tail: seq<Run>)
    requires ValidCuts(cuts, 0, |r.text|) && [head] + tail == Pieces(r, 0, cuts)
    ensures |tail| == |cuts|
    ensures head.text == r.text[..if cuts == [] then |r.text| else cuts[0]]
    ensures head.index == r.index && head.props == r.props
    ensures head.text + Texts(tail) == r.text
    ensures forall j :: 0 <= j < |tail| ==>
              tail[j].index == r.index + cuts[j] && tail[j].props == r.props
  {
    PiecesText(r, 0, cuts);
    assert ([head] + tail)[1..] == tail;
    forall j | 0 <= j < |tail|
      ensures tail[j].index == r.index + cuts[j] && tail[j].props == r.props
    {
      PiecesAt(r, 0, cuts, j);
      assert tail[j] == ([head] + tail)[j + 1];
    }
  }

  /** Whitespace marker rule: a piece gets a new marker exactly when its text
      starts or ends with whitespace; an empty piece, or one without edge
      whitespace, keeps the marker of the run it came from. */
  lemma {:induction false} PiecesPreserve(r: Run, from: int, cuts: seq<int>, k: nat)
    requires ValidCuts(cuts, from, |r.text|) && k < |Pieces(r, from, cuts)|
    ensures Pieces(r, from, cuts)[k].preserve ==
              (r.preserve || EdgeSpace(Pieces(r, from, cuts)[k].text))
    decreases |cuts|
  {
    if k > 0 {
      PiecesPreserve(r, cuts[0], cuts[1..], k - 1);
    }
  }
}
