/** The `add-skill` command: a numbered menu of the bundled skill documents,
    the choice read with `parseInt` semantics, and the installation of the
    chosen document, behind a YAML front-matter header, as
    <cwd>/.claude/skills/<id>/SKILL.md. */
module AddSkill {
  import opened Text
  import opened Paths
  import opened Files

  datatype Skill = Skill(id: string, name: string, description: string, sourceFile: string, keywords: string)

  /** `AVAILABLE_SKILLS`, in menu order. */
  const AvailableSkills: seq<Skill> := [
    Skill("dscore-utils", "dscore-utils", "dscore-utils 라이브러리 유틸리티 함수 가이드", "dscore_utils_skill.md",
      "유틸리티 함수 사용법, 배열 유틸리티, 날짜 포맷팅, 숫자 포맷팅"),
    Skill("dscore-cli", "dscore-cli", "dscore-cli 명령어 사용 가이드", "dscore_cli_skill.md",
      "페이지 생성, generate-page, CLI 명령어, 스캐폴딩")
  ]

  // ---------------------------------------------------------------------
  // parseInt(s, 10)
  // ---------------------------------------------------------------------

  /** The value of `parseInt`: a number or NaN. -0 is the integer 0. */
  datatype ParsedInt = NaN | Int(value: int)

  function DigitValue(c: char): (d: nat)
    requires IsDigit(c)
    ensures d < 10
  {
    c as int - '0' as int
  }

  function DigitChar(d: nat): (c: char)
    requires d < 10
    ensures IsDigit(c) && DigitValue(c) == d
  {
    ('0' as int + d) as char
  }

  predicate AllDigits(s: string) {
    forall i :: 0 <= i < |s| ==> IsDigit(s[i])
  }

  /** The longest prefix of decimal digits. */
  function LeadingDigits(s: string): (r: string)
    ensures |r| <= |s| && r == s[..|r|] && AllDigits(r)
    ensures |r| < |s| ==> !IsDigit(s[|r|])
  {
    if |s| > 0 && IsDigit(s[0]) then [s[0]] + LeadingDigits(s[1..]) else ""
  }

  /** The value of a string of decimal digits, most significant first. */
  function DigitsValue(ds: string): nat
    requires AllDigits(ds)
  {
    if |ds| == 0 then 0 else DigitsValue(ds[..|ds| - 1]) * 10 + DigitValue(ds[|ds| - 1])
  }

  /** `parseInt(s, 10)` on a string without leading whitespace: an optional
      sign, then the longest run of digits; no digit at all gives NaN. */
  function ParseInt(s: string): ParsedInt
  {
    var negative := |s| > 0 && s[0] == '-';
    var rest := if |s| > 0 && (s[0] == '-' || s[0] == '+') then s[1..] else s;
    var ds := LeadingDigits(rest);
    if ds == "" then NaN
    else if negative then Int(-(DigitsValue(ds) as int))
    else Int(DigitsValue(ds))
  }

  /** The decimal rendering of a number, as the menu shows it. */
  function ShowNat(n: nat): (r: string)
    ensures |r| > 0 && AllDigits(r)
  {
    if n < 10 then [DigitChar(n)] else ShowNat(n / 10) + [DigitChar(n % 10)]
  }

  lemma {:induction false} DigitsValueOfShow(n: nat)
    ensures DigitsValue(ShowNat(n)) == n
  {
    if n >= 10 {
      DigitsValueOfShow(n / 10);
      var s := ShowNat(n);
      assert s[..|s| - 1] == ShowNat(n / 10);
    }
  }

  lemma {:induction false} LeadingDigitsOfConcat(d: string, j: string)
    requires AllDigits(d) && (|j| == 0 || !IsDigit(j[0]))
    ensures LeadingDigits(d + j) == d
  {
    if |d| > 0 {
      assert (d + j)[1..] == d[1..] + j;
      LeadingDigitsOfConcat(d[1..], j);
    } else {
      assert d + j == j;
    }
  }

  /** parseInt reads back a rendered number and ignores whatever non-digit
      text follows it. */
  lemma ParseIntOfShow(n: nat, junk: string)
    requires |junk| == 0 || !IsDigit(junk[0])
    ensures ParseInt(ShowNat(n) + junk) == Int(n)
  {
    var s := ShowNat(n);
    LeadingDigitsOfConcat(s, junk);
    DigitsValueOfShow(n);
    assert (s + junk)[0] == s[0];
  }

  /** The same behind a sign. */
  lemma ParseIntOfSignedShow(n: nat, junk: string)
    requires |junk| == 0 || !IsDigit(junk[0])
    ensures ParseInt("+" + ShowNat(n) + junk) == Int(n)
    ensures ParseInt("-" + ShowNat(n) + junk) == Int(-(n as int))
  {
    ParseIntOfShow(n, junk);
    ParseIntSigned(ShowNat(n), junk);
  }

  /** A sign in front of a run of digits. */
  lemma ParseIntSigned(s: string, junk: string)
    requires |s| > 0 && IsDigit(s[0])
    ensures ParseInt(s + junk).Int?
    ensures ParseInt("+" + s + junk) == ParseInt(s + junk)
    ensures ParseInt("-" + s + junk) == Int(-ParseInt(s + junk).value)
  {
    var t := s + junk;
    assert t[0] == s[0];
    assert ("+" + s + junk)[1..] == t;
    assert ("-" + s + junk)[1..] == t;
  }

  /** parseInt gives NaN exactly when no digit follows the optional sign. */
  lemma ParseIntNaN(s: string)
    ensures ParseInt(s) == NaN <==>
      var rest := if |s| > 0 && (s[0] == '-' || s[0] == '+') then s[1..] else s;
      |rest| == 0 || !IsDigit(rest[0])
  {
  }

  // ---------------------------------------------------------------------
  // The menu choice
  // ---------------------------------------------------------------------

  datatype Choice = Cancel | OutOfRange(value: int) | Select(skill: Skill)

  /** `parseInt(answer.trim(), 10)`, then: 0 or NaN cancels; a value outside
      1..2 is an error; otherwise the skill at that menu number. */
  function Classify(answer: string): Choice
  {
    match ParseInt(Trim(answer))
    case NaN => Cancel
    case Int(v) =>
      if v == 0 then Cancel
      else if v < 1 || v > |AvailableSkills| then OutOfRange(v)
      else Select(AvailableSkills[v - 1])
  }

  /** Typing a menu number selects that skill, whatever non-digit text
      follows it; every larger number is out of range. */
  lemma MenuNumbers(n: nat, junk: string)
    requires NoWhitespace(junk) && (|junk| == 0 || !IsDigit(junk[0]))
    ensures 1 <= n <= |AvailableSkills| ==> Classify(ShowNat(n) + junk) == Select(AvailableSkills[n - 1])
    ensures n > |AvailableSkills| ==> Classify(ShowNat(n) + junk) == OutOfRange(n)
    ensures n == 0 ==> Classify(ShowNat(n) + junk) == Cancel
  {
    var s := ShowNat(n) + junk;
    assert NoWhitespace(s) by {
      forall i | 0 <= i < |s| ensures !IsJsWhitespace(s[i]) {
        if i < |ShowNat(n)| { assert IsDigit(s[i]); } else { assert s[i] == junk[i - |ShowNat(n)|]; }
      }
    }
    TrimNoWhitespace(s);
    ParseIntOfShow(n, junk);
  }

  /** A negative number is out of range, not a cancel. */
  lemma NegativeIsOutOfRange(n: nat)
    requires n > 0
    ensures Classify("-" + ShowNat(n)) == OutOfRange(-(n as int))
  {
    var s := "-" + ShowNat(n);
    assert NoWhitespace(s) by {
      forall i | 0 <= i < |s| ensures !IsJsWhitespace(s[i]) {
        if i > 0 { assert s[i] == ShowNat(n)[i - 1]; }
      }
    }
    TrimNoWhitespace(s);
    ParseIntOfSignedShow(n, "");
    assert s + "" == s;
  }

  /** No digits, "0" and "-0" cancel; "0x1" reads as 0 and cancels too. */
  lemma CancelExamples(a: string, b: string, c: string, d: string)
    requires a == "" && b == "abc" && c == "0x1" && d == "-0"
    ensures Classify(a) == Cancel && Classify(b) == Cancel && Classify(c) == Cancel && Classify(d) == Cancel
  {
    TrimNoWhitespace(a);
    TrimNoWhitespace(b);
    TrimNoWhitespace(c);
    assert LeadingDigits(b) == "";
    assert LeadingDigits(c[1..]) == "" by { assert c[1..] == "x1"; }
    assert LeadingDigits(c) == "0";
    assert d == "-" + ShowNat(0) + "";
    MenuNumbers(0, "");
    ParseIntOfSignedShow(0, "");
    TrimNoWhitespace(d);
  }

  /** Trailing text is ignored ("1abc"), the answer is trimmed (" 2 ") and a
      plus sign is accepted ("+2"). */
  lemma SelectExamples(e: string, f: string, g: string)
    requires e == "1abc" && f == " 2 " && g == "+2"
    ensures Classify(e) == Select(AvailableSkills[0])
    ensures Classify(f) == Select(AvailableSkills[1])
    ensures Classify(g) == Select(AvailableSkills[1])
  {
    SelectWithJunk(e);
    SelectTrimmed(f);
    SelectSigned(g);
  }

  lemma SelectWithJunk(e: string)
    requires e == "1abc"
    ensures Classify(e) == Select(AvailableSkills[0])
  {
    var one := ShowNat(1);
    assert one == "1";
    MenuNumbers(1, "abc");
    assert e == one + "abc";
  }

  lemma SelectTrimmed(f: string)
    requires f == " 2 "
    ensures Classify(f) == Select(AvailableSkills[1])
  {
    var two := ShowNat(2);
    assert two == "2";
    assert TrimStart(f) == "2 ";
    assert TrimEnd("2 ") == "2" by { assert "2 "[..1] == "2"; }
    MenuNumbers(2, "");
    assert Trim(f) == two + "";
    assert Classify(f) == Classify(two + "");
  }

  lemma SelectSigned(g: string)
    requires g == "+2"
    ensures Classify(g) == Select(AvailableSkills[1])
  {
    var two := ShowNat(2);
    assert two == "2";
    TrimNoWhitespace(g);
    ParseIntOfSignedShow(2, "");
    assert g == "+" + two + "";
    assert ParseInt(Trim(g)) == Int(2);
  }

  /** "3" and "-1" are refused. */
  lemma RefuseExamples(a: string, b: string)
    requires a == "3" && b == "-1"
    ensures Classify(a) == OutOfRange(3) && Classify(b) == OutOfRange(-1)
  {
    assert ShowNat(1) == "1" && ShowNat(3) == "3";
    MenuNumbers(3, "");
    assert a == ShowNat(3) + "";
    NegativeIsOutOfRange(1);
    assert b == "-" + ShowNat(1);
  }

  // ---------------------------------------------------------------------
  // The installed file
  // ---------------------------------------------------------------------

  /** The value of the `description:` field. */
  function DescriptionText(skill: Skill): string
  {
    skill.description + ". \"" + skill.keywords + "\" 등을 물어볼 때 사용합니다."
  }

  /** The front-matter header placed before the document. */
  function FrontMatter(skill: Skill): string
  {
    "---\nname: " + skill.id + "\ndescription: " + DescriptionText(skill) + "\n---\n\n"
  }

  /** `skillContent`: the header followed by the document, unchanged. */
  function SkillContent(skill: Skill, source: string): (r: string)
    ensures |r| == |FrontMatter(skill)| + |source|
    ensures r[..|FrontMatter(skill)|] == FrontMatter(skill) && r[|FrontMatter(skill)|..] == source
    ensures EndsWith(r, source)
  {
    FrontMatter(skill) + source
  }

  /** The first line of `s` and what follows its line feed. */
  function TakeLine(s: string): Option<(string, string)>
  {
    if |s| == 0 then None
    else if s[0] == '\n' then Some(("", s[1..]))
    else match TakeLine(s[1..])
      case None => None
      case Some(lr) => Some(([s[0]] + lr.0, lr.1))
  }

  lemma {:induction false} TakeLineOf(line: string, rest: string)
    requires '\n' !in line
    ensures TakeLine(line + "\n" + rest) == Some((line, rest))
  {
    if |line| > 0 {
      assert (line + "\n" + rest)[1..] == line[1..] + "\n" + rest;
      TakeLineOf(line[1..], rest);
      assert [line[0]] + line[1..] == line;
    } else {
      assert line + "\n" + rest == "\n" + rest;
    }
  }

  /** The first line of `s` if it starts with `prefix`: the rest of that
      line and what follows its line feed. */
  function ExpectLine(s: string, prefix: string): Option<(string, string)>
  {
    match TakeLine(s)
    case None => None
    case Some(lr) =>
      if |prefix| <= |lr.0| && lr.0[..|prefix|] == prefix then Some((lr.0[|prefix|..], lr.1)) else None
  }

  lemma ExpectLineOf(prefix: string, value: string, rest: string)
    requires '\n' !in prefix && '\n' !in value
    ensures ExpectLine(prefix + value + "\n" + rest, prefix) == Some((value, rest))
  {
    TakeLineOf(prefix + value, rest);
    assert (prefix + value)[..|prefix|] == prefix;
    assert (prefix + value)[|prefix|..] == value;
  }

  /** What a skill file tells a reader: the name, the description and the
      document. */
  datatype SkillDoc = SkillDoc(name: string, description: string, body: string)

  /** Reads a skill file back: the "---" line, the name and description
      fields, the closing "---", a blank line, then the document. */
  function ParseSkillFile(content: string): Option<SkillDoc>
  {
    match ExpectLine(content, "---")
    case None => None
    case Some(l0) =>
      if l0.0 != "" then None else
      match ExpectLine(l0.1, "name: ")
      case None => None
      case Some(l1) =>
        match ExpectLine(l1.1, "description: ")
        case None => None
        case Some(l2) =>
          match ExpectLine(l2.1, "---")
          case None => None
          case Some(l3) =>
            if l3.0 != "" then None else
            match TakeLine(l3.1)
            case None => None
            case Some(l4) => if l4.0 != "" then None else Some(SkillDoc(l1.0, l2.0, l4.1))
  }

  /** The installed file reads back as the skill's id, its description and
      the unchanged document, whenever the fields hold no line feed. */
  lemma SkillFileRoundTrip(skill: Skill, source: string)
    requires '\n' !in skill.id && '\n' !in DescriptionText(skill)
    ensures ParseSkillFile(SkillContent(skill, source)) == Some(SkillDoc(skill.id, DescriptionText(skill), source))
  {
    ParseLines(skill.id, DescriptionText(skill), source);
  }

  /** A file laid out as the header and a document parses back to them. */
  lemma ParseLines(name: string, desc: string, source: string)
    requires '\n' !in name && '\n' !in desc
    ensures ParseSkillFile("---\nname: " + name + "\ndescription: " + desc + "\n---\n\n" + source)
      == Some(SkillDoc(name, desc, source))
  {
    var r3 := "" + "\n" + source;
    var r2 := "---" + "" + "\n" + r3;
    var r1 := "description: " + desc + "\n" + r2;
    var r0 := "name: " + name + "\n" + r1;
    assert "---\nname: " + name + "\ndescription: " + desc + "\n---\n\n" + source == "---" + "" + "\n" + r0 by {
      assert "---\nname: " == "---" + "" + "\n" + "name: ";
      assert "\ndescription: " == "\n" + "description: ";
      assert "\n---\n\n" == "\n" + ("---" + "" + "\n" + ("" + "\n"));
    }
    ExpectLineOf("---", "", r0);
    ExpectLineOf("name: ", name, r1);
    ExpectLineOf("description: ", desc, r2);
    ExpectLineOf("---", "", r3);
    TakeLineOf("", source);
  }

  /** Two different documents give two different files. */
  lemma SkillContentInjective(skill: Skill, a: string, b: string)
    requires SkillContent(skill, a) == SkillContent(skill, b)
    ensures a == b
  {
  }

  /** `path.join(cwd, '.claude', 'skills', skill.id)`. */
  function SkillDir(cwd: Path, id: string): Path
  {
    cwd + [".claude", "skills", id]
  }

  /** `path.join(skillDir, 'SKILL.md')`. */
  function SkillFilePath(cwd: Path, id: string): (r: Path)
    ensures |r| > 0 && Parent(r) == SkillDir(cwd, id)
  {
    SkillDir(cwd, id) + ["SKILL.md"]
  }

  /** Skills with different ids are installed into different files, all
      under <cwd>/.claude/skills. */
  lemma SkillPathsDistinct(cwd: Path, a: string, b: string)
    requires a != b
    ensures SkillFilePath(cwd, a) != SkillFilePath(cwd, b)
    ensures Below(SkillFilePath(cwd, a), cwd + [".claude", "skills"])
  {
    assert SkillFilePath(cwd, a)[|cwd| + 2] == a;
    assert SkillFilePath(cwd, b)[|cwd| + 2] == b;
    assert SkillFilePath(cwd, a)[..|cwd| + 2] == cwd + [".claude", "skills"];
  }

  lemma UtilsFieldsFlat(d: string, k: string)
    requires d == "dscore-utils 라이브러리 유틸리티 함수 가이드"
    requires k == "유틸리티 함수 사용법, 배열 유틸리티, 날짜 포맷팅, 숫자 포맷팅"
    ensures '\n' !in d && '\n' !in k
  {
  }

  lemma CliFieldsFlat(d: string, k: string)
    requires d == "dscore-cli 명령어 사용 가이드"
    requires k == "페이지 생성, generate-page, CLI 명령어, 스캐폴딩"
    ensures '\n' !in d && '\n' !in k
  {
  }

  lemma TailFlat(tail: string)
    requires tail == "\" 등을 물어볼 때 사용합니다."
    ensures '\n' !in tail
  {
  }

  /** The menu's skills have distinct ids, so they are installed into
      distinct files, and no field breaks the front matter's lines, so each
      installed file reads back as its skill. */
  lemma AvailableSkillsWellFormed()
    ensures |AvailableSkills| == 2 && AvailableSkills[0].id != AvailableSkills[1].id
    ensures forall s :: s in AvailableSkills ==> s.name == s.id && '\n' !in s.id && '\n' !in DescriptionText(s)
  {
    var a, b := AvailableSkills[0], AvailableSkills[1];
    assert a.id[7] != b.id[7];
    var tail := "\" 등을 물어볼 때 사용합니다.";
    UtilsFieldsFlat(a.description, a.keywords);
    CliFieldsFlat(b.description, b.keywords);
    TailFlat(tail);
    assert DescriptionText(a) == a.description + ". \"" + a.keywords + tail;
    assert DescriptionText(b) == b.description + ". \"" + b.keywords + tail;
  }

  // ---------------------------------------------------------------------
  // Installation
  // ---------------------------------------------------------------------

  /** Where the bundled document of `skill` lives: `docsDir` is the package's
      bin/docs directory. */
  function SourcePath(docsDir: Path, skill: Skill): Path
  {
    docsDir + [skill.sourceFile]
  }

  /** `createSkillFile(skill)` against the bundled documents `docs`: None when
      the document is missing (the command then exits with 1 before touching
      the filesystem); otherwise the skill directory is created if absent and
      SKILL.md is written. */
  method CreateSkillFile(fs: FileSystem, docs: map<Path, string>, docsDir: Path, cwd: Path, skill: Skill)
      returns (created: Option<Path>)
    modifies fs
    ensures created.None? <==> SourcePath(docsDir, skill) !in docs
    ensures created.None? ==> fs.dirs == old(fs.dirs) && fs.files == old(fs.files) && fs.trace == old(fs.trace)
    ensures created.Some? ==>
      var dir := SkillDir(cwd, skill.id);
      var content := Text(SkillContent(skill, docs[SourcePath(docsDir, skill)]));
      && created.value == SkillFilePath(cwd, skill.id)
      && fs.dirs == (if old(fs.Exists(dir)) then old(fs.dirs) else old(fs.dirs) + Ancestry(dir))
      && fs.files == old(fs.files)[created.value := content]
      && fs.trace == old(fs.trace) + (if old(fs.Exists(dir)) then [] else [MakeDir(dir)]) + [WriteFile(created.value, content)]
  {
    var sourcePath := SourcePath(docsDir, skill);
    if sourcePath !in docs {
      return None;
    }
    var content := SkillContent(skill, docs[sourcePath]);
    var dir := SkillDir(cwd, skill.id);
    var path := dir + ["SKILL.md"];
    if !fs.Exists(dir) {
      fs.MakeDirectory(dir);
    }
    fs.Write(path, Text(content));
    return Some(path);
  }

  /** How the command ends. */
  datatype SkillOutcome =
    | Cancelled
    | InvalidChoice(value: int)
    | MissingSource(source: Path)
    | Installed(skill: Skill, path: Path)

  /** `process.exit(1)` for a refused number and a missing document. */
  function SkillExitCode(o: SkillOutcome): (code: int)
    ensures code == 0 || code == 1
  {
    if o.InvalidChoice? || o.MissingSource? then 1 else 0
  }

  /** `main`, from the answer typed at the menu. */
  function InstallOutcome(answer: string, docs: map<Path, string>, docsDir: Path, cwd: Path): SkillOutcome
  {
    match Classify(answer)
    case Cancel => Cancelled
    case OutOfRange(v) => InvalidChoice(v)
    case Select(skill) =>
      if SourcePath(docsDir, skill) in docs then Installed(skill, SkillFilePath(cwd, skill.id))
      else MissingSource(SourcePath(docsDir, skill))
  }

  /** `main`: reads the choice and installs the selected skill. */
  method InstallSkill(fs: FileSystem, docs: map<Path, string>, docsDir: Path, cwd: Path, answer: string)
      returns (o: SkillOutcome)
    modifies fs
    ensures o == InstallOutcome(answer, docs, docsDir, cwd)
    ensures !o.Installed? ==> fs.dirs == old(fs.dirs) && fs.files == old(fs.files) && fs.trace == old(fs.trace)
    ensures o.Installed? ==>
      var dir := SkillDir(cwd, o.skill.id);
      var content := Text(SkillContent(o.skill, docs[SourcePath(docsDir, o.skill)]));
      && o.path == SkillFilePath(cwd, o.skill.id)
      && fs.dirs == (if old(fs.Exists(dir)) then old(fs.dirs) else old(fs.dirs) + Ancestry(dir))
      && fs.files == old(fs.files)[o.path := content]
      && fs.trace == old(fs.trace) + (if old(fs.Exists(dir)) then [] else [MakeDir(dir)]) + [WriteFile(o.path, content)]
  {
    var choice := Classify(answer);
    match choice {
      case Cancel => return Cancelled;
      case OutOfRange(v) => return InvalidChoice(v);
      case Select(skill) =>
        var created := CreateSkillFile(fs, docs, docsDir, cwd, skill);
        if created.None? {
          return MissingSource(SourcePath(docsDir, skill));
        }
        return Installed(skill, created.value);
    }
  }

  /** The command fails exactly for a number outside the menu and for a
      selected skill whose document is missing; a cancel is a success. */
  lemma InstallExitStatus(answer: string, docs: map<Path, string>, docsDir: Path, cwd: Path)
    ensures SkillExitCode(InstallOutcome(answer, docs, docsDir, cwd)) == 1 <==>
      Classify(answer).OutOfRange? || (Classify(answer).Select? && SourcePath(docsDir, Classify(answer).skill) !in docs)
  {
  }

  /** An installed skill is one of the menu's, lands in its own
      .claude/skills/<id>/SKILL.md, and its file reads back as the skill's id,
      description and the bundled document. */
  lemma InstalledFileReadsBack(answer: string, docs: map<Path, string>, docsDir: Path, cwd: Path)
    requires InstallOutcome(answer, docs, docsDir, cwd).Installed?
    ensures var o := InstallOutcome(answer, docs, docsDir, cwd);
      && o.skill in AvailableSkills
      && o.path == SkillFilePath(cwd, o.skill.id)
      && var doc := docs[SourcePath(docsDir, o.skill)];
         ParseSkillFile(SkillContent(o.skill, doc)) == Some(SkillDoc(o.skill.id, DescriptionText(o.skill), doc))
  {
    var o := InstallOutcome(answer, docs, docsDir, cwd);
    AvailableSkillsWellFormed();
    SkillFileRoundTrip(o.skill, docs[SourcePath(docsDir, o.skill)]);
  }
}
