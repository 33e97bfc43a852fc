/** How a list item's field value becomes the text that replaces its token
    (`DocxTokenFiller.getFieldString`). */
module FieldValues {
  import Runs

  /** The values a list item may hold for a field, as far as the filler
      distinguishes them: `Null` is JavaScript's `null`/`undefined`. */
  datatype Value = Null | Str(s: string) | Int(n: SafeInteger) | Bool(b: bool)

  /** 2^53 - 1, JavaScript's `Number.MAX_SAFE_INTEGER`. */
  const MaxSafeInteger: int := 0x1F_FFFF_FFFF_FFFF

  /** The integers a JavaScript number holds exactly; below 10^21 in size,
      so `toString` writes them in plain decimal notation. */
  type SafeInteger = n: int | -MaxSafeInteger <= n <= MaxSafeInteger

  /** A column description: its internal name (the key of the item), its
      display name and its type name ("Note", "DateTime", "Text", ...). */
  datatype Field = Field(internalName: string, title: string, typeName: string)

  /** A list item, keyed by internal field name; a missing key is `undefined`. */
  type Item = map<string, Value>

  // ---------------------------------------------------------------------------
  // toString
  // ---------------------------------------------------------------------------

  function DigitChar(d: nat): char
    requires d < 10
  {
    "0123456789"[d]
  }

  predicate IsDigit(c: char)
  {
    '0' <= c <= '9'
  }

  function DigitValue(c: char): nat
    requires IsDigit(c)
  {
    (c as int - '0' as int) as nat
  }

  /** Decimal notation of a natural number, most significant digit first. */
  function Decimal(n: nat): (s: string)
    ensures |s| > 0 && forall i :: 0 <= i < |s| ==> IsDigit(s[i])
    ensures s[0] == '0' ==> n == 0
  {
    if n < 10 then [DigitChar(n)] else Decimal(n / 10) + [DigitChar(n % 10)]
  }

  /** The value of a non-empty string of decimal digits. */
  function ParseDigits(s: string): nat
    requires |s| > 0 && forall i :: 0 <= i < |s| ==> IsDigit(s[i])
  {
    if |s| == 1 then DigitValue(s[0])
    else ParseDigits(s[..|s| - 1]) * 10 + DigitValue(s[|s| - 1])
  }

  lemma {:induction false} DecimalRoundTrip(n: nat)
    ensures ParseDigits(Decimal(n)) == n
  {
    var s := Decimal(n);
    if n < 10 {
      assert s == [DigitChar(n)];
    } else {
      var front := Decimal(n / 10);
      assert s == front + [DigitChar(n % 10)];
      assert s[..|s| - 1] == front;
      DecimalRoundTrip(n / 10);
    }
  }

  /** Decimal notation of an integer, with a leading '-' when negative: what
      JavaScript's `toString` writes for a number holding a `SafeInteger`. */
  function IntString(n: int): string
  {
    if n < 0 then "-" + Decimal(-n) else Decimal(n)
  }

  /** Reads back an integer written by `IntString`: an optional minus sign,
      then decimal digits. */
  function ParseInt(s: string): Runs.Option<int>
  {
    if |s| > 1 && s[0] == '-' && forall i :: 1 <= i < |s| ==> IsDigit(s[i]) then
      Runs.Some(-(ParseDigits(s[1..]) as int))
    else if |s| > 0 && forall i :: 0 <= i < |s| ==> IsDigit(s[i]) then
      Runs.Some(ParseDigits(s))
    else Runs.None
  }

  lemma IntStringRoundTrip(n: int)
    ensures ParseInt(IntString(n)) == Runs.Some(n)
  {
    var s := IntString(n);
    if n < 0 {
      var d := Decimal(-n);
      assert s == "-" + d;
      assert s[1..] == d;
      assert forall i :: 1 <= i < |s| ==> IsDigit(s[i]) by {
        forall i | 1 <= i < |s| ensures IsDigit(s[i]) {
          assert s[i] == d[i - 1];
        }
      }
      DecimalRoundTrip(-n);
    } else {
      assert s == Decimal(n);
      assert IsDigit(s[0]);
      DecimalRoundTrip(n);
    }
  }

  /** `val.toString()` of a non-null value. */
  function ToStr(v: Value): string
    requires v != Null
  {
    match v
    case Str(s) => s
    case Int(n) => IntString(n)
    case Bool(b) => if b then "true" else "false"
  }

  // ---------------------------------------------------------------------------
  // Removing HTML tags from a "Note" value
  // ---------------------------------------------------------------------------

  /** The position of the first '>' in `s`, or `|s|` when there is none. */
  function FirstClose(s: string): (k: nat)
    ensures k <= |s|
    ensures forall j :: 0 <= j < k ==> s[j] != '>'
    ensures k < |s| ==> s[k] == '>'
  {
    if s == [] || s[0] == '>' then 0 else 1 + FirstClose(s[1..])
  }

  /** A tag as the pattern `<\/?[^>]+(>|$)` matches it starts here: a '<'
      followed by some character other than '>'. */
  predicate OpensTag(s: string)
  {
    |s| >= 2 && s[0] == '<' && s[1] != '>'
  }

  /** The length of the tag that starts `s`: the '<', every character up to
      the next '>', and that '>' when there is one. */
  function TagLength(s: string): (k: nat)
    requires OpensTag(s)
    ensures 2 <= k <= |s|
  {
    var close := FirstClose(s[1..]);
    if 1 + close < |s| then 2 + close else |s|
  }

  /** Global replacement of the pattern `<\/?[^>]+(>|$)` by "": scanning from
      the left, every tag that starts at the current position is dropped and
      every other character is kept. */
  function StripTags(s: string): string
    decreases |s|
  {
    if s == [] then ""
    else if OpensTag(s) then StripTags(s[TagLength(s)..])
    else [s[0]] + StripTags(s[1..])
  }

  /** No tag starts anywhere in `t`. */
  predicate NoOpenTag(t: string)
  {
    forall i :: 0 <= i < |t| ==> !OpensTag(t[i..])
  }

  /** `a` is `b` with some characters removed. */
  predicate IsSubsequence(a: string, b: string)
    decreases |b|
  {
    if a == [] then true
    else if b == [] then false
    else if a[0] == b[0] then IsSubsequence(a[1..], b[1..])
    else IsSubsequence(a, b[1..])
  }

  lemma {:induction false} SubsequenceOfDrop(a: string, b: string, k: nat)
    requires k <= |b| && IsSubsequence(a, b[k..])
    ensures IsSubsequence(a, b)
    decreases k
  {
    if k > 0 {
      assert b[k..] == b[1..][k - 1..];
      SubsequenceOfDrop(a, b[1..], k - 1);
      SubsequenceCons(a, b);
    }
  }

  lemma SubsequenceCons(a: string, b: string)
    requires b != [] && IsSubsequence(a, b[1..])
    ensures IsSubsequence(a, b)
  {
    if a != [] && a[0] == b[0] {
      SubsequenceTail(a, b[1..]);
    }
  }

  lemma {:induction false} SubsequenceTail(a: string, b: string)
    requires a != [] && IsSubsequence(a, b)
    ensures IsSubsequence(a[1..], b)
    decreases |b|
  {
    var a' := a[1..];
    if a' != [] {
      assert a'[1..] == a[2..];
      if a[0] == b[0] {
        // a' is a subsequence of b[1..]
        if a'[0] == b[0] {
          SubsequenceTail(a', b[1..]);
        }
      } else {
        SubsequenceTail(a, b[1..]);
        if a'[0] == b[0] {
          SubsequenceTail(a', b[1..]);
        }
      }
    }
  }

  /** Stripping only removes characters; the rest keep their order. */
  lemma {:induction false} StripTagsSubsequence(s: string)
    ensures IsSubsequence(StripTags(s), s)
    decreases |s|
  {
    if s == [] {
    } else if OpensTag(s) {
      StripTagsSubsequence(s[TagLength(s)..]);
      SubsequenceOfDrop(StripTags(s), s, TagLength(s));
    } else {
      StripTagsSubsequence(s[1..]);
      var out := StripTags(s);
      assert out == [s[0]] + StripTags(s[1..]);
      assert out[1..] == StripTags(s[1..]);
    }
  }

  /** What is left holds no tag: a '<' survives only at the end or right
      before a '>'. */
  lemma {:induction false} StripTagsNoTag(s: string)
    ensures NoOpenTag(StripTags(s))
    decreases |s|
  {
    if s == [] {
    } else if OpensTag(s) {
      StripTagsNoTag(s[TagLength(s)..]);
    } else {
      var rest := StripTags(s[1..]);
      StripTagsNoTag(s[1..]);
      var out := [s[0]] + rest;
      forall i | 0 <= i < |out| ensures !OpensTag(out[i..]) {
        if i == 0 {
          if |out| >= 2 && s[0] == '<' {
            StripTagsHead(s[1..]);
          }
        } else {
          assert out[i..] == rest[i - 1..];
        }
      }
    }
  }

  /** The first character kept from a string that starts with '>' is that '>'. */
  lemma StripTagsHead(s: string)
    ensures s != [] && s[0] == '>' ==> StripTags(s) != [] && StripTags(s)[0] == '>'
    ensures s == [] ==> StripTags(s) == []
  {
  }

  /** A string holding no tag is left as it is. */
  lemma {:induction false} StripTagsKeeps(t: string)
    requires NoOpenTag(t)
    ensures StripTags(t) == t
    decreases |t|
  {
    if t != [] {
      assert !OpensTag(t[0..]);
      assert t[0..] == t;
      forall i | 0 <= i < |t[1..]| ensures !OpensTag(t[1..][i..]) {
        assert t[1..][i..] == t[i + 1..];
      }
      StripTagsKeeps(t[1..]);
    }
  }

  /** Stripping never lengthens, and shortens whenever a tag is present. */
  lemma {:induction false} StripTagsShortens(s: string)
    ensures |StripTags(s)| <= |s|
    ensures !NoOpenTag(s) ==> |StripTags(s)| < |s|
    decreases |s|
  {
    if s == [] {
    } else if OpensTag(s) {
      StripTagsShortens(s[TagLength(s)..]);
    } else {
      StripTagsShortens(s[1..]);
      if !NoOpenTag(s) {
        var i :| 0 <= i < |s| && OpensTag(s[i..]);
        assert i != 0 by { assert s[0..] == s; }
        assert s[1..][i - 1..] == s[i..];
      }
    }
  }

  /** The strings stripping leaves alone are exactly those holding no tag. */
  lemma StripTagsFixed(t: string)
    ensures StripTags(t) == t <==> NoOpenTag(t)
  {
    StripTagsShortens(t);
    if NoOpenTag(t) {
      StripTagsKeeps(t);
    }
  }

  lemma StripTagsIdempotent(s: string)
    ensures StripTags(StripTags(s)) == StripTags(s)
  {
    StripTagsNoTag(s);
    StripTagsKeeps(StripTags(s));
  }

  /** A rich-text value loses its markup. */
  lemma StripTagsExample()
    ensures StripTags("<b>Hi</b>") == "Hi"
  {
    assert StripTags("") == "";
    assert TagLength("</b>") == 4;
    assert StripTags("</b>") == "";
    assert "i</b>"[1..] == "</b>";
    assert StripTags("i</b>") == "i";
    assert "Hi</b>"[1..] == "i</b>";
    assert StripTags("Hi</b>") == "Hi";
    assert TagLength("<b>Hi</b>") == 3;
    assert "<b>Hi</b>"[3..] == "Hi</b>";
  }

  /** Text holding no tag, and not ending in a '<' that could open one, is
      kept in front of whatever stripping leaves of the rest. */
  lemma {:induction false} StripTagsKeepsText(p: string, q: string)
    requires NoOpenTag(p) && (p == [] || p[|p| - 1] != '<')
    ensures StripTags(p + q) == p + StripTags(q)
    decreases |p|
  {
    if p == [] {
      assert p + q == q;
    } else {
      var s := p + q;
      assert !OpensTag(p[0..]);
      assert p[0..] == p;
      assert !OpensTag(s) by {
        if |p| >= 2 { assert s[1] == p[1]; } else { assert s[0] == p[|p| - 1]; }
      }
      assert StripTags(s) == [s[0]] + StripTags(s[1..]);
      assert s[1..] == p[1..] + q;
      forall i | 0 <= i < |p[1..]| ensures !OpensTag(p[1..][i..]) {
        assert p[1..][i..] == p[i + 1..];
      }
      StripTagsKeepsText(p[1..], q);
      assert [p[0]] + (p[1..] + StripTags(q)) == p + StripTags(q);
    }
  }

  /** `t` is one whole tag: a '<', at least one character other than '>',
      and the first '>' after them. */
  predicate IsTag(t: string)
  {
    |t| >= 3 && t[0] == '<' && t[1] != '>' && t[|t| - 1] == '>' &&
    forall j :: 1 <= j < |t| - 1 ==> t[j] != '>'
  }

  /** Text in which no tag can start, whether or not more text follows. */
  predicate PlainText(a: string)
  {
    NoOpenTag(a) && (a == [] || a[|a| - 1] != '<')
  }

  /** A whole tag is dropped. */
  lemma StripTagsDropsTag(t: string, q: string)
    requires IsTag(t)
    ensures StripTags(t + q) == StripTags(q)
  {
    var s := t + q;
    assert OpensTag(s);
    var u := s[1..];
    assert u[|t| - 2] == '>';
    assert forall j :: 0 <= j < |t| - 2 ==> u[j] == t[j + 1];
    assert FirstClose(u) == |t| - 2;
    assert TagLength(s) == |t|;
    assert s[|t|..] == q;
  }

  /** Text between an opening and a closing tag is all that is kept of them. */
  lemma StripTagsEnclosed(o: string, a: string, c: string, q: string)
    requires IsTag(o) && PlainText(a) && IsTag(c)
    ensures StripTags(o + a + c + q) == a + StripTags(q)
  {
    assert o + a + c + q == o + (a + (c + q));
    StripTagsDropsTag(o, a + (c + q));
    StripTagsKeepsText(a, c + q);
    StripTagsDropsTag(c, q);
  }

  /** Text, then a second run of text inside a nested tag, both inside an
      outer tag: the two texts are what is kept. */
  lemma StripTagsNested(o1: string, a: string, o2: string, b: string, c2: string, c1: string)
    requires IsTag(o1) && IsTag(o2) && IsTag(c2) && IsTag(c1)
    requires PlainText(a) && PlainText(b)
    ensures StripTags(o1 + a + o2 + b + c2 + c1) == a + b
  {
    var rest := o2 + b + c2 + c1;
    StripTagsEnclosed(o2, b, c2, c1);
    StripTagsDropsTag(c1, []);
    assert c1 + [] == c1;
    assert StripTags(rest) == b by { assert b + [] == b; }
    StripTagsKeepsText(a, rest);
    StripTagsDropsTag(o1, a + rest);
    Regroup(o1, a, o2, b, c2, c1);
  }

  /** Regrouping a concatenation of six strings. */
  lemma Regroup(x1: string, x2: string, x3: string, x4: string, x5: string, x6: string)
    ensures x1 + x2 + x3 + x4 + x5 + x6 == x1 + (x2 + (x3 + x4 + x5 + x6))
  {
  }

  /** The two words of the paragraph below are plain text. */
  lemma PlainWords()
    ensures PlainText("Hello ") && PlainText("World")
  {
    var hello, world := "Hello ", "World";
    forall i | 0 <= i < |hello| ensures !OpensTag(hello[i..]) { assert hello[i..][0] != '<'; }
    forall i | 0 <= i < |world| ensures !OpensTag(world[i..]) { assert world[i..][0] != '<'; }
  }

  /** The four tags of the paragraph below are whole tags. */
  lemma ParagraphTags()
    ensures IsTag("<p>") && IsTag("<b>") && IsTag("</b>") && IsTag("</p>")
    ensures "<p>" + "Hello " + "<b>" + "World" + "</b>" + "</p>" == "<p>Hello <b>World</b></p>"
  {
  }

  /** The text of a paragraph of rich text, with a nested tag. */
  lemma StripTagsParagraph(html: string)
    requires html == "<p>Hello <b>World</b></p>"
    ensures StripTags(html) == "Hello World"
  {
    PlainWords();
    ParagraphTags();
    StripTagsNested("<p>", "Hello ", "<b>", "World", "</b>", "</p>");
  }

  // ---------------------------------------------------------------------------
  // getFieldString
  // ---------------------------------------------------------------------------

  /** The replacement text of `field` for `item`. A missing or null value
      gives ""; a "Note" has its HTML tags removed; a "DateTime" is rendered
      by `formatDate` (the locale-dependent `toLocaleString` of the value);
      every other value gives its `toString`. The value is looked up by the
      field's internal name, whatever key the token uses. */
  function FieldString(item: Item, field: Field, formatDate: Value -> string): (r: string)
    ensures field.internalName !in item || item[field.internalName] == Null ==> r == ""
    ensures field.internalName in item && item[field.internalName] != Null ==>
      match field.typeName
      case "Note" => NoOpenTag(r) && IsSubsequence(r, ToStr(item[field.internalName])) &&
                     (NoOpenTag(ToStr(item[field.internalName])) ==> r == ToStr(item[field.internalName]))
      case "DateTime" => r == formatDate(item[field.internalName])
      case _ => r == ToStr(item[field.internalName])
  {
    if field.internalName !in item then ""
    else
      var v := item[field.internalName];
      if v == Null then ""
      else if field.typeName == "Note" then
        StripTagsNoTag(ToStr(v));
        StripTagsSubsequence(ToStr(v));
        StripTagsFixed(ToStr(v));
        StripTags(ToStr(v))
      else if field.typeName == "DateTime" then formatDate(v)
      else ToStr(v)
  }
}
