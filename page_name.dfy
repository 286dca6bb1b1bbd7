/** The page generator's name validator: an ordered chain of checks on the
    raw answer, the first failing check deciding the error. */
module PageName {
  import opened Text
  import opened Paths
  import opened CaseConversion

  datatype ValidationError =
    | EmptyName
    | ReservedSuffix(suggestion: string)
    | InvalidCharacters
    | FolderExists(folder: Path)

  datatype Validation = Valid(pageName: string) | Invalid(error: ValidationError)

  /** `input.trim().toLowerCase()`. */
  function Normalize(input: string): string
  {
    Lower(Trim(input))
  }

  /** `/^[a-z][a-z0-9-]*$/`. */
  predicate MatchesNamePattern(s: string) {
    |s| > 0 && IsLowerLetter(s[0])
    && forall i :: 0 < i < |s| ==> IsLowerLetter(s[i]) || IsDigit(s[i]) || s[i] == '-'
  }

  /** `name.replace(/-?page$/i, '')`: the leftmost match of "-?page" that
      ends the string; it takes the hyphen when there is one. */
  function SuggestWithoutSuffix(name: string): string
  {
    if EndsWith(name, "-page") then name[..|name| - 5]
    else if EndsWith(name, "page") then name[..|name| - 4]
    else name
  }

  /** `path.join(cwd, 'src/page', name)`. */
  function PageFolder(cwd: Path, name: string): (r: Path)
    ensures |r| == |cwd| + 3 && r[..|cwd|] == cwd && r[|cwd| + 2] == name
  {
    cwd + ["src", "page", name]
  }

  /** `validateInput`: empty, then the "page" suffix, then the character
      set, then an existing folder (or file) at src/page/<name>. */
  function ValidateInput(input: string, cwd: Path, existing: set<Path>): Validation
  {
    if Trim(input) == "" then Invalid(EmptyName)
    else
      var name := Normalize(input);
      if EndsWith(name, "-page") || EndsWith(name, "page") then Invalid(ReservedSuffix(SuggestWithoutSuffix(name)))
      else if !MatchesNamePattern(name) then Invalid(InvalidCharacters)
      else if PageFolder(cwd, name) in existing then Invalid(FolderExists(PageFolder(cwd, name)))
      else Valid(name)
  }

  // ---------------------------------------------------------------------
  // Properties
  // ---------------------------------------------------------------------

  /** First check: the empty error is returned exactly for all-whitespace input. */
  lemma EmptyIffBlank(input: string, cwd: Path, existing: set<Path>)
    ensures ValidateInput(input, cwd, existing) == Invalid(EmptyName)
      <==> forall i :: 0 <= i < |input| ==> IsJsWhitespace(input[i])
  {
    TrimEmptyIffAllWhitespace(input);
  }

  /** Second check: every non-blank input whose normalised form ends in
      "page" is refused for its suffix, whatever its characters; the
      suggestion drops the final "page" and at most one hyphen before it. */
  lemma SuffixRejected(input: string, cwd: Path, existing: set<Path>)
    requires Trim(input) != "" && EndsWith(Normalize(input), "page")
    ensures ValidateInput(input, cwd, existing).Invalid?
    ensures var e := ValidateInput(input, cwd, existing).error;
      var name := Normalize(input);
      && e.ReservedSuffix?
      && (name == e.suggestion + "page" || name == e.suggestion + "-page")
      && (EndsWith(name, "-page") <==> name == e.suggestion + "-page")
  {
    var name := Normalize(input);
    var sugg := SuggestWithoutSuffix(name);
    if EndsWith(name, "-page") {
      assert name == name[..|name| - 5] + name[|name| - 5..];
    } else {
      assert name == name[..|name| - 4] + name[|name| - 4..];
    }
  }

  /** The "-page" test is subsumed by the "page" test. */
  lemma HyphenPageSubsumed(s: string)
    requires EndsWith(s, "-page")
    ensures EndsWith(s, "page")
  {
    assert s[|s| - 4..] == s[|s| - 5..][1..];
  }

  /** "1page" is refused for its suffix, not its leading digit, and the
      suggestion is not validated again: "pagepage" suggests "page". */
  lemma SuffixBeforeCharacters(a: string, b: string, cwd: Path, existing: set<Path>)
    requires a == "1page" && b == "pagepage"
    ensures ValidateInput(a, cwd, existing) == Invalid(ReservedSuffix("1"))
    ensures ValidateInput(b, cwd, existing) == Invalid(ReservedSuffix("page"))
  {
    SuffixExamples(a, b);
    SuffixResult(a, cwd, existing);
    SuffixResult(b, cwd, existing);
  }

  /** A non-blank input with the reserved suffix gets the suffix error. */
  lemma SuffixResult(input: string, cwd: Path, existing: set<Path>)
    requires Trim(input) != "" && EndsWith(Normalize(input), "page")
    ensures ValidateInput(input, cwd, existing) == Invalid(ReservedSuffix(SuggestWithoutSuffix(Normalize(input))))
  {
  }

  lemma SuffixExamples(a: string, b: string)
    requires a == "1page" && b == "pagepage"
    ensures Trim(a) == a && Normalize(a) == a && EndsWith(a, "page") && SuggestWithoutSuffix(a) == "1"
    ensures Trim(b) == b && Normalize(b) == b && EndsWith(b, "page") && SuggestWithoutSuffix(b) == "page"
  {
    DigitPage(a);
    PagePage(b);
  }

  lemma DigitPage(a: string)
    requires a == "1page"
    ensures Trim(a) == a && Normalize(a) == a && EndsWith(a, "page") && SuggestWithoutSuffix(a) == "1"
  {
    TrimNoWhitespace(a);
    assert Lower(a) == a;
    assert a[|a| - 4..] == "page";
    assert !EndsWith(a, "-page") by { assert a[0] != '-'; }
    assert a[..|a| - 4] == "1";
  }

  lemma PagePage(b: string)
    requires b == "pagepage"
    ensures Trim(b) == b && Normalize(b) == b && EndsWith(b, "page") && SuggestWithoutSuffix(b) == "page"
  {
    TrimNoWhitespace(b);
    assert Lower(b) == b;
    assert b[|b| - 4..] == "page";
    assert !EndsWith(b, "-page") by { assert b[|b| - 5] != '-'; }
    assert b[..|b| - 4] == "page";
  }

  /** Third check: the character error is returned exactly for a non-blank
      input without the reserved suffix whose normalised form breaks the
      pattern; which folders exist does not matter. */
  lemma CharactersRejectedIff(input: string, cwd: Path, existing: set<Path>)
    ensures ValidateInput(input, cwd, existing) == Invalid(InvalidCharacters)
      <==> Trim(input) != "" && !EndsWith(Normalize(input), "page") && !MatchesNamePattern(Normalize(input))
  {
    if Trim(input) != "" && EndsWith(Normalize(input), "-page") {
      HyphenPageSubsumed(Normalize(input));
    }
  }

  /** Fourth check: the folder error names `folder` exactly when the input
      passed the first three checks, `folder` is the page folder of its
      normalised form, and something already exists there. */
  lemma FolderExistsIff(input: string, cwd: Path, existing: set<Path>, folder: Path)
    ensures ValidateInput(input, cwd, existing) == Invalid(FolderExists(folder))
      <==> && Trim(input) != ""
           && !EndsWith(Normalize(input), "page")
           && MatchesNamePattern(Normalize(input))
           && folder == PageFolder(cwd, Normalize(input))
           && folder in existing
  {
    if Trim(input) != "" && EndsWith(Normalize(input), "-page") {
      HyphenPageSubsumed(Normalize(input));
    }
  }

  /** Characters outside [a-z0-9-] after lowering, or a leading non-letter,
      are refused: "user_mgt" and "1abc". */
  lemma CharacterExamples(a: string, b: string, cwd: Path, existing: set<Path>)
    requires a == "user_mgt" && b == "1abc"
    ensures ValidateInput(a, cwd, existing) == Invalid(InvalidCharacters)
    ensures ValidateInput(b, cwd, existing) == Invalid(InvalidCharacters)
  {
    TrimNoWhitespace(a);
    TrimNoWhitespace(b);
    assert Lower(a) == a;
    assert Lower(b) == b;
    assert !MatchesNamePattern(a) by { assert a[4] == '_'; }
    assert !EndsWith(a, "page") by { assert a[|a| - 4..] != "page"; }
    assert !EndsWith(a, "-page") by { assert a[|a| - 5..] != "-page"; }
    assert !EndsWith(b, "page") by { assert b[|b| - 4..] != "page"; }
    assert !EndsWith(b, "-page");
  }

  /** What success guarantees: the page name is the trimmed, lower-cased
      input, matches the pattern, does not end in "page", holds no path
      separator or dot, and its folder sits directly under src/page and does
      not exist yet. */
  lemma {:induction false} SuccessGuarantees(input: string, cwd: Path, existing: set<Path>)
    requires ValidateInput(input, cwd, existing).Valid?
    ensures var name := ValidateInput(input, cwd, existing).pageName;
      && name == Normalize(input)
      && MatchesNamePattern(name)
      && !EndsWith(name, "page")
      && '/' !in name && '.' !in name && '\\' !in name
      && name != "" && NoWhitespace(name)
      && PageFolder(cwd, name) !in existing
      && Parent(PageFolder(cwd, name)) == cwd + ["src", "page"]
  {
    var name := Normalize(input);
    assert MatchesNamePattern(name);
    assert forall i :: 0 <= i < |name| ==> name[i] != '/' && name[i] != '.' && name[i] != '\\';
  }

  /** A name matching the pattern, not ending in "page" and whose folder is
      absent is accepted unchanged; in particular every accepted name is
      accepted again as itself. */
  lemma {:induction false} PatternNamesAccepted(s: string, cwd: Path, existing: set<Path>)
    requires MatchesNamePattern(s) && !EndsWith(s, "page") && PageFolder(cwd, s) !in existing
    ensures ValidateInput(s, cwd, existing) == Valid(s)
  {
    assert NoWhitespace(s);
    TrimNoWhitespace(s);
    assert Lower(s) == s;
    if EndsWith(s, "-page") {
      HyphenPageSubsumed(s);
    }
  }

  /** Validation is idempotent on its own output. */
  lemma AcceptedNameIsFixpoint(input: string, cwd: Path, existing: set<Path>)
    requires ValidateInput(input, cwd, existing).Valid?
    ensures var name := ValidateInput(input, cwd, existing).pageName;
      ValidateInput(name, cwd, existing) == Valid(name)
  {
    SuccessGuarantees(input, cwd, existing);
    PatternNamesAccepted(ValidateInput(input, cwd, existing).pageName, cwd, existing);
  }

  /** Upper-case input is lowered before the character check, so the guide's
      bad example "UserMgt" is accepted (as "usermgt"), with or without
      surrounding blanks. */
  lemma UpperCaseAccepted(a: string, cwd: Path, existing: set<Path>)
    requires a == " UserMgt "
    requires PageFolder(cwd, "usermgt") !in existing
    ensures ValidateInput(a, cwd, existing) == Valid("usermgt")
    ensures ValidateInput("UserMgt", cwd, existing) == Valid("usermgt")
  {
    var u := "UserMgt";
    assert Trim(a) == u by {
      assert TrimStart(a) == a[1..];
      assert a[1..][..|a[1..]| - 1] == u;
      assert TrimEnd(a[1..]) == u;
    }
    UserMgtNormalizes(u, "usermgt");
    SameTrimSameResult(a, u, cwd, existing);
    NormalizedAccepted(u, cwd, existing);
  }

  /** Validation sees only the trimmed input. */
  lemma SameTrimSameResult(a: string, b: string, cwd: Path, existing: set<Path>)
    requires Trim(a) == Trim(b)
    ensures ValidateInput(a, cwd, existing) == ValidateInput(b, cwd, existing)
  {
  }

  /** An input whose normalised form is a fresh name matching the pattern,
      without the reserved suffix, is accepted as that form. */
  lemma NormalizedAccepted(u: string, cwd: Path, existing: set<Path>)
    requires Trim(u) != ""
    requires var n := Normalize(u); MatchesNamePattern(n) && !EndsWith(n, "page") && PageFolder(cwd, n) !in existing
    ensures ValidateInput(u, cwd, existing) == Valid(Normalize(u))
  {
    if EndsWith(Normalize(u), "-page") {
      HyphenPageSubsumed(Normalize(u));
    }
  }

  /** "UserMgt" normalises to "usermgt", a name of the accepted form. */
  lemma UserMgtNormalizes(u: string, n: string)
    requires u == "UserMgt" && n == "usermgt"
    ensures Trim(u) == u && Normalize(u) == n
    ensures MatchesNamePattern(n) && !EndsWith(n, "page")
  {
    TrimNoWhitespace(u);
    assert Lower(u) == n;
    assert !EndsWith(n, "page") by { assert n[|n| - 4..] != "page"; }
  }

  /** A trailing hyphen passes validation, and the hyphen survives in the
      derived identifiers. */
  lemma TrailingHyphenAccepted(a: string, cwd: Path, existing: set<Path>)
    requires a == "user-" && PageFolder(cwd, a) !in existing
    ensures ValidateInput(a, cwd, existing) == Valid("user-")
    ensures Pascal(a) == "User-"
  {
    assert !EndsWith(a, "page") by { assert a[|a| - 4..] != "page"; }
    assert MatchesNamePattern(a);
    PatternNamesAccepted(a, cwd, existing);
    DanglingHyphenSurvives();
  }

  /** A name with no trailing and no doubled hyphen. */
  predicate KebabHyphens(s: string)
    requires |s| > 0
  {
    s[|s| - 1] != '-' && forall i :: 0 <= i < |s| - 1 ==> !(s[i] == '-' && s[i + 1] == '-')
  }

  /** For a validated name, the word characters are its non-hyphens. */
  lemma DanglingIffNotKebab(s: string)
    requires MatchesNamePattern(s)
    ensures NoDanglingHyphen(s) <==> KebabHyphens(s)
  {
    if KebabHyphens(s) {
      forall i | 0 <= i < |s| && s[i] == '-' ensures i + 1 < |s| && IsWordChar(s[i + 1]) {
        assert i != |s| - 1;
        assert s[i + 1] != '-';
      }
    }
  }

  /** A validated name has no dangling hyphen exactly when it has no
      trailing and no doubled hyphen, and so its PascalCase and camelCase
      forms are hyphen-free exactly then. */
  lemma DanglingHyphenIffTrailingOrDoubled(s: string)
    requires MatchesNamePattern(s)
    ensures NoDanglingHyphen(s)
      <==> s[|s| - 1] != '-' && forall i :: 0 <= i < |s| - 1 ==> !(s[i] == '-' && s[i + 1] == '-')
    ensures '-' !in Camel(s) && '-' !in Pascal(s)
      <==> s[|s| - 1] != '-' && forall i :: 0 <= i < |s| - 1 ==> !(s[i] == '-' && s[i + 1] == '-')
  {
    DanglingIffNotKebab(s);
    HyphenFreeIffNoDangling(s);
  }

  /** For a validated name without trailing or doubled hyphens (kebab-case),
      the derived names are identifiers of letters and digits: PascalCase
      starts upper-case, camelCase lower-case, and neither keeps a hyphen. */
  lemma {:induction false} KebabNamesGiveIdentifiers(s: string)
    requires MatchesNamePattern(s) && NoDanglingHyphen(s)
    ensures var p, c := Pascal(s), Camel(s);
      && |p| > 0 && IsUpperLetter(p[0]) && |c| > 0 && IsLowerLetter(c[0])
      && (forall ch :: ch in p ==> IsLowerLetter(ch) || IsUpperLetter(ch) || IsDigit(ch))
      && (forall ch :: ch in c ==> IsLowerLetter(ch) || IsUpperLetter(ch) || IsDigit(ch))
  {
    CamelRemovesHyphens(s);
    PascalRemovesHyphens(s);
    CamelChars(s);
    CamelKeepsFirst(s);
    PascalIsCapitalizedCamel(s);
    assert forall d :: d in s ==> IsLowerLetter(d) || IsDigit(d) || d == '-' by {
      forall d | d in s ensures IsLowerLetter(d) || IsDigit(d) || d == '-' {
        var i :| 0 <= i < |s| && s[i] == d;
      }
    }
    var c := Camel(s);
    forall ch | ch in Pascal(s) ensures IsLowerLetter(ch) || IsUpperLetter(ch) || IsDigit(ch) {
      var i :| 0 <= i < |Pascal(s)| && Pascal(s)[i] == ch;
      if i > 0 {
        assert ch == c[i];
        assert ch in c;
      }
    }
  }
}
