/** Kebab-case to PascalCase / camelCase, as the page generator derives the
    identifiers and file names of a new page from its name.

    The source rewrites with regular expressions: camelCase replaces every
    match of `/-\w/g` by the upper-cased word character, PascalCase replaces
    every match of `/(^\w|-\w)/g` by the upper-cased match without its hyphen.
    A hyphen that is not followed by a word character is not matched and
    survives: "user-" becomes "User-". */
module CaseConversion {
  import opened Text

  /** `str.replace(/-\w/g, m => m.slice(1).toUpperCase())`: a left-to-right
      scan; each "-x" with x a word character becomes upper-case x. */
  function Camel(s: string): string
    decreases |s|
  {
    if |s| == 0 then ""
    else if |s| >= 2 && s[0] == '-' && IsWordChar(s[1]) then [UpperChar(s[1])] + Camel(s[2..])
    else [s[0]] + Camel(s[1..])
  }

  /** `str.replace(/(^\w|-\w)/g, m => m.replace('-', '').toUpperCase())`: the
      `^\w` alternative can only match at index 0, so after it the scan is the
      camelCase scan of the remainder. */
  function Pascal(s: string): string
  {
    if |s| > 0 && IsWordChar(s[0]) then [UpperChar(s[0])] + Camel(s[1..]) else Camel(s)
  }

  /** Every hyphen is immediately followed by a word character, so every
      hyphen is consumed by the rewrite. */
  predicate NoDanglingHyphen(s: string) {
    forall i :: 0 <= i < |s| && s[i] == '-' ==> i + 1 < |s| && IsWordChar(s[i + 1])
  }

  function HyphenCount(s: string): nat
  {
    if |s| == 0 then 0 else (if s[0] == '-' then 1 else 0) + HyphenCount(s[1..])
  }

  // ---------------------------------------------------------------------
  // Independent reference: split on '-', then capitalise segments.
  // ---------------------------------------------------------------------

  /** `s.split('-')`: always at least one (possibly empty) segment. */
  function Split(s: string): (r: seq<string>)
    ensures |r| >= 1
  {
    if |s| == 0 then [""]
    else
      var rest := Split(s[1..]);
      if s[0] == '-' then [""] + rest else [[s[0]] + rest[0]] + rest[1..]
  }

  function Capitalize(w: string): string
  {
    if |w| == 0 then w else [UpperChar(w[0])] + w[1..]
  }

  function ConcatCapitalized(ws: seq<string>): string
  {
    if |ws| == 0 then "" else Capitalize(ws[0]) + ConcatCapitalized(ws[1..])
  }

  /** camelCase by segments: first segment as is, the others capitalised. */
  function CamelBySegments(s: string): string
  {
    var ws := Split(s);
    ws[0] + ConcatCapitalized(ws[1..])
  }

  /** PascalCase by segments: every segment capitalised. */
  function PascalBySegments(s: string): string
  {
    ConcatCapitalized(Split(s))
  }

  // ---------------------------------------------------------------------
  // Properties
  // ---------------------------------------------------------------------

  lemma NoDanglingHyphenSuffix(s: string, k: nat)
    requires NoDanglingHyphen(s) && k <= |s|
    ensures NoDanglingHyphen(s[k..])
  {
    forall i | 0 <= i < |s[k..]| && s[k..][i] == '-'
      ensures i + 1 < |s[k..]| && IsWordChar(s[k..][i + 1])
    {
      assert s[k + i] == '-';
    }
  }

  /** One step of Split on a non-hyphen character: it extends the first segment. */
  lemma SplitCons(c: char, s: string)
    requires c != '-'
    ensures Split([c] + s) == [[c] + Split(s)[0]] + Split(s)[1..]
  {
    assert ([c] + s)[1..] == s;
  }

  /** One step of Split on a hyphen: it opens a new, empty first segment. */
  lemma SplitHyphen(s: string)
    ensures Split(['-'] + s) == [""] + Split(s)
  {
    assert (['-'] + s)[1..] == s;
  }

  lemma CamelHyphenStep(x: char, t: string)
    requires IsWordChar(x) && Camel(t) == CamelBySegments(t)
    ensures Camel(['-', x] + t) == CamelBySegments(['-', x] + t)
  {
    CamelHyphenHead(x, t);
    SegmentsHyphenHead(x, t);
  }

  /** The scan turns a leading "-x" into upper-case x. */
  lemma CamelHyphenHead(x: char, t: string)
    requires IsWordChar(x)
    ensures Camel(['-', x] + t) == [UpperChar(x)] + Camel(t)
  {
    assert (['-', x] + t)[2..] == t;
  }

  /** Splitting turns a leading "-x" into an empty segment and a segment
      starting with x, so the segment-wise camelCase upper-cases x. */
  lemma SegmentsHyphenHead(x: char, t: string)
    requires x != '-'
    ensures CamelBySegments(['-', x] + t) == [UpperChar(x)] + CamelBySegments(t)
  {
    var r := Split(t);
    var head := [x] + r[0];
    var tail := [head] + r[1..];
    SplitHyphenCons(x, t);
    SegmentsOfSplit(['-', x] + t, [""] + tail);
    assert ([""] + tail)[1..] == tail;
    ConcatCapitalizedCons(head, r[1..]);
    assert Capitalize(head) == [UpperChar(x)] + r[0];
  }

  lemma SegmentsOfSplit(s: string, ws: seq<string>)
    requires Split(s) == ws
    ensures CamelBySegments(s) == ws[0] + ConcatCapitalized(ws[1..])
  {
  }

  lemma SplitHyphenCons(x: char, t: string)
    requires x != '-'
    ensures Split(['-', x] + t) == [""] + ([[x] + Split(t)[0]] + Split(t)[1..])
  {
    assert ['-', x] + t == ['-'] + ([x] + t);
    SplitHyphen([x] + t);
    SplitCons(x, t);
  }

  lemma ConcatCapitalizedCons(w: string, ws: seq<string>)
    ensures ConcatCapitalized([w] + ws) == Capitalize(w) + ConcatCapitalized(ws)
  {
    assert ([w] + ws)[1..] == ws;
  }

  lemma CamelConsStep(c: char, t: string)
    requires c != '-' && Camel(t) == CamelBySegments(t)
    ensures Camel([c] + t) == CamelBySegments([c] + t)
  {
    assert ([c] + t)[1..] == t;
    SplitCons(c, t);
  }

  /** The regex rewrite agrees with the split-and-capitalise definition on
      names whose hyphens are all followed by a word character. */
  lemma {:induction false} CamelMatchesSegments(s: string)
    requires NoDanglingHyphen(s)
    ensures Camel(s) == CamelBySegments(s)
    decreases |s|
  {
    if |s| == 0 {
    } else if s[0] == '-' {
      assert |s| >= 2 && IsWordChar(s[1]);
      NoDanglingHyphenSuffix(s, 2);
      CamelMatchesSegments(s[2..]);
      assert s == ['-', s[1]] + s[2..];
      CamelHyphenStep(s[1], s[2..]);
    } else {
      NoDanglingHyphenSuffix(s, 1);
      CamelMatchesSegments(s[1..]);
      assert s == [s[0]] + s[1..];
      CamelConsStep(s[0], s[1..]);
    }
  }

  lemma {:induction false} PascalMatchesSegments(s: string)
    requires NoDanglingHyphen(s)
    ensures Pascal(s) == PascalBySegments(s)
  {
    CamelMatchesSegments(s);
    if |s| == 0 {
    } else if IsWordChar(s[0]) {
      var t := s[1..];
      NoDanglingHyphenSuffix(s, 1);
      CamelMatchesSegments(t);
      assert s == [s[0]] + t;
      SplitCons(s[0], t);
      var r := Split(t);
      assert Capitalize([s[0]] + r[0]) == [UpperChar(s[0])] + r[0];
    } else {
      var ws := Split(s);
      assert s == [s[0]] + s[1..];
      if s[0] == '-' {
        SplitHyphen(s[1..]);
      } else {
        SplitCons(s[0], s[1..]);
        assert ws[0][0] == s[0];
        assert Capitalize(ws[0]) == ws[0];
      }
    }
  }

  /** camelCase leaves a leading non-hyphen character as it is. */
  lemma CamelKeepsFirst(s: string)
    requires |s| > 0 && s[0] != '-'
    ensures |Camel(s)| > 0 && Camel(s)[0] == s[0]
  {
  }

  /** For a name starting with a word character, PascalCase is camelCase with
      its first character upper-cased. */
  lemma PascalIsCapitalizedCamel(s: string)
    requires |s| > 0 && IsWordChar(s[0])
    ensures Pascal(s) == [UpperChar(s[0])] + Camel(s)[1..]
    ensures |Pascal(s)| == |Camel(s)|
  {
  }

  /** When every hyphen is consumed, no hyphen is left and each hyphen costs
      exactly one character. */
  lemma {:induction false} CamelRemovesHyphens(s: string)
    requires NoDanglingHyphen(s)
    ensures '-' !in Camel(s)
    ensures |Camel(s)| == |s| - HyphenCount(s)
    decreases |s|
  {
    if |s| == 0 {
    } else if s[0] == '-' {
      NoDanglingHyphenSuffix(s, 2);
      CamelRemovesHyphens(s[2..]);
      assert s[1] != '-';
      assert s[1..][1..] == s[2..];
    } else {
      NoDanglingHyphenSuffix(s, 1);
      CamelRemovesHyphens(s[1..]);
    }
  }

  lemma PascalRemovesHyphens(s: string)
    requires NoDanglingHyphen(s)
    ensures '-' !in Pascal(s)
    ensures |Pascal(s)| == |s| - HyphenCount(s)
  {
    CamelRemovesHyphens(s);
    if |s| > 0 && IsWordChar(s[0]) {
      NoDanglingHyphenSuffix(s, 1);
      CamelRemovesHyphens(s[1..]);
    }
  }

  /** The converse: a hyphen that is not followed by a word character is
      never matched by `-\w`, so it survives into camelCase. */
  lemma {:induction false} DanglingSurvivesCamel(s: string)
    requires !NoDanglingHyphen(s)
    ensures '-' in Camel(s)
    decreases |s|
  {
    var i :| 0 <= i < |s| && s[i] == '-' && !(i + 1 < |s| && IsWordChar(s[i + 1]));
    if |s| >= 2 && s[0] == '-' && IsWordChar(s[1]) {
      assert s[2..][i - 2] == s[i];
      DanglingSurvivesCamel(s[2..]);
      assert Camel(s) == [UpperChar(s[1])] + Camel(s[2..]);
    } else if i == 0 {
      assert Camel(s)[0] == '-';
    } else {
      assert s[1..][i - 1] == s[i];
      assert i < |s| - 1 ==> s[1..][i] == s[i + 1];
      DanglingSurvivesCamel(s[1..]);
      assert Camel(s) == [s[0]] + Camel(s[1..]);
    }
  }

  /** The same for PascalCase: `^\w` only touches a leading word character. */
  lemma DanglingSurvivesPascal(s: string)
    requires !NoDanglingHyphen(s)
    ensures '-' in Pascal(s)
  {
    if |s| > 0 && IsWordChar(s[0]) {
      var i :| 0 <= i < |s| && s[i] == '-' && !(i + 1 < |s| && IsWordChar(s[i + 1]));
      assert s[1..][i - 1] == s[i];
      assert i < |s| - 1 ==> s[1..][i] == s[i + 1];
      DanglingSurvivesCamel(s[1..]);
      assert Pascal(s) == [UpperChar(s[0])] + Camel(s[1..]);
    } else {
      DanglingSurvivesCamel(s);
    }
  }

  /** Both conversions leave a hyphen exactly when some hyphen is not
      followed by a word character. */
  lemma HyphenFreeIffNoDangling(s: string)
    ensures '-' !in Camel(s) <==> NoDanglingHyphen(s)
    ensures '-' !in Pascal(s) <==> NoDanglingHyphen(s)
  {
    if NoDanglingHyphen(s) {
      CamelRemovesHyphens(s);
      PascalRemovesHyphens(s);
    } else {
      DanglingSurvivesCamel(s);
      DanglingSurvivesPascal(s);
    }
  }

  /** Each output character is an input character or its upper-case form. */
  lemma {:induction false} CamelChars(s: string)
    ensures forall c :: c in Camel(s) ==> c in s || exists d :: d in s && c == UpperChar(d)
    decreases |s|
  {
    if |s| == 0 {
    } else if |s| >= 2 && s[0] == '-' && IsWordChar(s[1]) {
      CamelChars(s[2..]);
      assert forall d :: d in s[2..] ==> d in s;
      assert s[1] in s;
    } else {
      CamelChars(s[1..]);
      assert forall d :: d in s[1..] ==> d in s;
    }
  }

  /** A name without hyphens is left unchanged by camelCase. */
  lemma {:induction false} CamelNoHyphen(s: string)
    requires '-' !in s
    ensures Camel(s) == s
    decreases |s|
  {
    if |s| > 0 {
      assert s == [s[0]] + s[1..];
      CamelNoHyphen(s[1..]);
    }
  }

  /** No match straddles a boundary that is not preceded by a hyphen, so the
      camelCase scan of a concatenation is the concatenation of the scans. */
  lemma {:induction false} CamelConcat(a: string, b: string)
    requires |a| == 0 || a[|a| - 1] != '-'
    ensures Camel(a + b) == Camel(a) + Camel(b)
    decreases |a|
  {
    if |a| > 0 {
      var n := if |a| >= 2 && a[0] == '-' && IsWordChar(a[1]) then 2 else 1;
      var a' := a[n..];
      assert |a'| == 0 || a'[|a'| - 1] == a[|a| - 1];
      CamelConcat(a', b);
      ConcatHead(a, b, n);
      var c := Camel(a);
      var k := |c| - |Camel(a')|;
      assert c == c[..k] + Camel(a');
      assert Camel(a + b) == c[..k] + (Camel(a') + Camel(b));
    } else {
      assert a + b == b;
    }
  }

  /** One step of the scan on `a + b` consumes the same characters as on `a`. */
  lemma ConcatHead(a: string, b: string, n: nat)
    requires 0 < n <= |a| && a[|a| - 1] != '-'
    requires n == if |a| >= 2 && a[0] == '-' && IsWordChar(a[1]) then 2 else 1
    ensures Camel(a + b) == Camel(a)[..|Camel(a)| - |Camel(a[n..])|] + Camel(a[n..] + b)
    ensures |Camel(a)| >= |Camel(a[n..])| && Camel(a)[|Camel(a)| - |Camel(a[n..])|..] == Camel(a[n..])
  {
    var s := a + b;
    assert s[..n] == a[..n] && s[n..] == a[n..] + b;
    if n == 2 {
      assert Camel(s) == [UpperChar(a[1])] + Camel(a[n..] + b);
    } else {
      assert !(|s| >= 2 && s[0] == '-' && IsWordChar(s[1])) by {
        if |a| == 1 { assert s[0] != '-'; } else { assert s[1] == a[1]; }
      }
      assert Camel(s) == [a[0]] + Camel(a[n..] + b);
    }
  }

  lemma {:induction false} SplitNoHyphen(s: string)
    requires '-' !in s
    ensures Split(s) == [s]
    decreases |s|
  {
    if |s| > 0 {
      SplitNoHyphen(s[1..]);
      assert s == [s[0]] + s[1..];
      SplitCons(s[0], s[1..]);
    }
  }

  /** Splitting "a-b" with a hyphen-free `a` gives `a` followed by the
      segments of `b`. */
  lemma {:induction false} SplitAtFirstHyphen(a: string, b: string)
    requires '-' !in a
    ensures Split(a + ['-'] + b) == [a] + Split(b)
    decreases |a|
  {
    if |a| == 0 {
      assert a + ['-'] + b == ['-'] + b;
      SplitHyphen(b);
    } else {
      SplitAtFirstHyphen(a[1..], b);
      assert a + ['-'] + b == [a[0]] + (a[1..] + ['-'] + b);
      SplitCons(a[0], a[1..] + ['-'] + b);
      assert a == [a[0]] + a[1..];
    }
  }

  /** A hyphen that no word character follows is kept: "user-" becomes
      "User-" / "user-", while the segment-wise definition drops it. */
  lemma DanglingHyphenSurvives()
    ensures Pascal("user-") == "User-" && Camel("user-") == "user-"
    ensures Pascal("a--b") == "A-B" && Camel("a--b") == "a-B"
    ensures PascalBySegments("user-") == "User"
  {
    TrailingHyphenKept("user-");
    DoubledHyphenKept("a--b");
    TrailingSegmentDropped("user-");
  }

  /** "user-": the final hyphen has nothing to match and stays. */
  lemma TrailingHyphenKept(s: string)
    requires s == "user-"
    ensures Pascal(s) == "User-" && Camel(s) == "user-"
  {
    var w := "user";
    assert s == w + "-" && '-' !in w && w[|w| - 1] != '-';
    CamelConcat(w, "-");
    CamelNoHyphen(w);
    assert Camel("-") == "-";
    var t := s[1..];
    assert t == "ser" + "-" && '-' !in "ser";
    CamelConcat("ser", "-");
    CamelNoHyphen("ser");
    assert Pascal(s) == [UpperChar(s[0])] + Camel(t);
  }

  /** "a--b": the first hyphen is followed by a hyphen and stays, the second
      one takes the b. */
  lemma DoubledHyphenKept(s: string)
    requires s == "a--b"
    ensures Pascal(s) == "A-B" && Camel(s) == "a-B"
  {
    var t := s[1..];
    assert t == "--b";
    CamelHyphenHead('b', []);
    assert t[1..] == ['-', 'b'] + [];
    assert Camel(t) == ['-'] + Camel(t[1..]);
    assert Camel(s) == [s[0]] + Camel(t);
    assert Pascal(s) == [UpperChar(s[0])] + Camel(t);
  }

  /** The segment-wise definition drops the empty last segment's hyphen. */
  lemma TrailingSegmentDropped(s: string)
    requires s == "user-"
    ensures PascalBySegments(s) == "User"
  {
    assert s == "user" + ['-'] + "";
    SplitAtFirstHyphen("user", "");
    SplitNoHyphen("");
    ConcatCapitalizedCons("user", [""]);
    ConcatCapitalizedCons("", []);
  }

  /** Two hyphen-free words joined by one hyphen: camelCase capitalises the
      second word. */
  lemma CamelTwoWords(a: string, b: string)
    requires '-' !in a && '-' !in b && |b| > 0 && IsWordChar(b[0])
    ensures Camel(a + "-" + b) == a + [UpperChar(b[0])] + b[1..]
  {
    var hb := "-" + b;
    assert a + "-" + b == a + hb;
    assert |a| == 0 || a[|a| - 1] != '-' by {
      if |a| > 0 { assert a[|a| - 1] in a; }
    }
    CamelConcat(a, hb);
    CamelNoHyphen(a);
    assert hb[0] == '-' && hb[1] == b[0] && hb[2..] == b[1..];
    assert Camel(hb) == [UpperChar(b[0])] + Camel(b[1..]);
    assert '-' !in b[1..] by {
      forall i | 0 <= i < |b[1..]| ensures b[1..][i] != '-' {
        assert b[1..][i] == b[i + 1];
      }
    }
    CamelNoHyphen(b[1..]);
  }

  /** PascalCase capitalises both words. */
  lemma PascalTwoWords(a: string, b: string)
    requires '-' !in a && '-' !in b && |a| > 0 && |b| > 0 && IsWordChar(a[0]) && IsWordChar(b[0])
    ensures Pascal(a + "-" + b) == [UpperChar(a[0])] + a[1..] + [UpperChar(b[0])] + b[1..]
  {
    var s := a + "-" + b;
    assert s[0] == a[0];
    assert s[1..] == a[1..] + "-" + b;
    CamelTwoWords(a[1..], b);
  }

  /** The examples the generator's guide lists: user-mgt, order-history, product. */
  lemma GuideExampleUserMgt()
    ensures Pascal("user-mgt") == "UserMgt" && Camel("user-mgt") == "userMgt"
  {
    assert "user-mgt" == "user" + "-" + "mgt";
    CamelTwoWords("user", "mgt");
    PascalTwoWords("user", "mgt");
    assert UpperChar('u') == 'U' && UpperChar('m') == 'M';
    assert "user"[1..] == "ser" && "mgt"[1..] == "gt";
  }

  lemma GuideExampleOrderHistory(s: string)
    requires s == "order-history"
    ensures Pascal(s) == "OrderHistory" && Camel(s) == "orderHistory"
  {
    assert s == "order" + "-" + "history";
    CamelTwoWords("order", "history");
    PascalTwoWords("order", "history");
  }

  lemma GuideExampleProduct(s: string)
    requires s == "product"
    ensures Pascal(s) == "Product" && Camel(s) == "product"
  {
    assert '-' !in s && IsWordChar(s[0]);
    OneWord(s);
    assert [UpperChar(s[0])] + s[1..] == "Product";
  }

  /** A single word keeps its letters; PascalCase capitalises the first. */
  lemma OneWord(w: string)
    requires '-' !in w && |w| > 0 && IsWordChar(w[0])
    ensures Pascal(w) == [UpperChar(w[0])] + w[1..] && Camel(w) == w
  {
    CamelNoHyphen(w);
    assert '-' !in w[1..] by {
      forall i | 0 <= i < |w[1..]| ensures w[1..][i] != '-' {
        assert w[1..][i] == w[i + 1];
      }
    }
    CamelNoHyphen(w[1..]);
  }
}
