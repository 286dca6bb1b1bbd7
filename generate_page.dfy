/** The `generate-page` command: argument mode (validate the first argument,
    generate or fail) and the interactive mode, which asks for a page name
    until it gets a valid one or a quit answer. Console output is not
    modelled; the validation errors that would be printed are collected. */
module PageCommand {
  import opened Text
  import opened Paths
  import opened Files
  import opened PageName
  import opened Scaffold

  /** `answer.toLowerCase() === 'q' || answer.toLowerCase() === 'quit'`, on
      the raw answer: surrounding blanks defeat it. */
  predicate IsQuit(answer: string) {
    Lower(answer) == "q" || Lower(answer) == "quit"
  }

  /** How the prompt loop ends: a quit answer, a valid page name, or the end
      of the input before either. */
  datatype Decision = Quit | Chosen(pageName: string) | InputClosed

  /** The loop's decision together with the validation errors reported for
      the answers rejected before it. */
  datatype Session = Session(decision: Decision, rejected: seq<ValidationError>)

  /** An answer that ends the loop. */
  predicate Decisive(answer: string, cwd: Path, existing: set<Path>) {
    IsQuit(answer) || ValidateInput(answer, cwd, existing).Valid?
  }

  /** `askPageName` over the answers typed at the successive prompts. */
  function Interact(answers: seq<string>, cwd: Path, existing: set<Path>): Session
    decreases |answers|
  {
    if |answers| == 0 then Session(InputClosed, [])
    else if IsQuit(answers[0]) then Session(Quit, [])
    else match ValidateInput(answers[0], cwd, existing)
      case Valid(name) => Session(Chosen(name), [])
      case Invalid(e) =>
        var rest := Interact(answers[1..], cwd, existing);
        Session(rest.decision, [e] + rest.rejected)
  }

  /** An answer that is neither a quit word nor a valid name is reported and
      the loop asks again. */
  lemma InteractRejects(answers: seq<string>, cwd: Path, existing: set<Path>)
    requires |answers| > 0 && !IsQuit(answers[0]) && ValidateInput(answers[0], cwd, existing).Invalid?
    ensures var rest := Interact(answers[1..], cwd, existing);
      Interact(answers, cwd, existing)
        == Session(rest.decision, [ValidateInput(answers[0], cwd, existing).error] + rest.rejected)
  {
  }

  /** `askPageName`: the prompt loop. The filesystem is only read: nothing is
      created until the loop has ended. */
  method AskPageName(fs: FileSystem, cwd: Path, answers: seq<string>) returns (s: Session)
    ensures s == Interact(answers, cwd, fs.Existing())
  {
    var existing := fs.Existing();
    var i := 0;
    var rejected: seq<ValidationError> := [];
    while i < |answers|
      invariant 0 <= i <= |answers|
      invariant var r := Interact(answers[i..], cwd, existing);
        Interact(answers, cwd, existing) == Session(r.decision, rejected + r.rejected)
    {
      var answer := answers[i];
      if IsQuit(answer) {
        return Session(Quit, rejected);
      }
      var v := ValidateInput(answer, cwd, existing);
      if v.Valid? {
        return Session(Chosen(v.pageName), rejected);
      }
      InteractRejects(answers[i..], cwd, existing);
      assert answers[i..][1..] == answers[i + 1..];
      rejected := rejected + [v.error];
      i := i + 1;
    }
    return Session(InputClosed, rejected);
  }

  /** Answer `k` is the first that ends the loop. */
  predicate FirstDecisive(answers: seq<string>, k: int, cwd: Path, existing: set<Path>) {
    && 0 <= k < |answers| && Decisive(answers[k], cwd, existing)
    && forall j :: 0 <= j < k ==> !Decisive(answers[j], cwd, existing)
  }

  /** The input runs out exactly when no answer ends the loop. */
  lemma {:induction false} ClosedIffNoDecisive(answers: seq<string>, cwd: Path, existing: set<Path>)
    ensures Interact(answers, cwd, existing).decision == InputClosed
      <==> forall j :: 0 <= j < |answers| ==> !Decisive(answers[j], cwd, existing)
    decreases |answers|
  {
    if |answers| > 0 && !Decisive(answers[0], cwd, existing) {
      var rest := answers[1..];
      ClosedIffNoDecisive(rest, cwd, existing);
      assert forall j :: 0 < j < |answers| ==> answers[j] == rest[j - 1];
    }
  }

  /** The loop stops at the first decisive answer: it quits or chooses
      according to that answer and reports the validation error of every
      answer before it, in order. */
  lemma {:induction false} FirstDecisiveWins(answers: seq<string>, k: int, cwd: Path, existing: set<Path>)
    requires FirstDecisive(answers, k, cwd, existing)
    ensures var s := Interact(answers, cwd, existing);
      && s.decision == (if IsQuit(answers[k]) then Quit else Chosen(ValidateInput(answers[k], cwd, existing).pageName))
      && |s.rejected| == k
      && forall j :: 0 <= j < k ==> s.rejected[j] == ValidateInput(answers[j], cwd, existing).error
    decreases |answers|
  {
    if k > 0 {
      var rest := answers[1..];
      assert !Decisive(answers[0], cwd, existing);
      assert FirstDecisive(rest, k - 1, cwd, existing) by {
        assert rest[k - 1] == answers[k];
        forall j | 0 <= j < k - 1 ensures !Decisive(rest[j], cwd, existing) {
          assert rest[j] == answers[j + 1];
        }
      }
      FirstDecisiveWins(rest, k - 1, cwd, existing);
      var s := Interact(answers, cwd, existing);
      forall j | 0 < j < k ensures s.rejected[j] == ValidateInput(answers[j], cwd, existing).error {
        assert rest[j - 1] == answers[j];
      }
    }
  }

  /** Answers are compared raw for quitting but trimmed for validation: "Q"
      and "QUIT" quit, while " q" and "quit " are page names. */
  lemma QuitExamples(a: string, b: string, c: string, d: string, cwd: Path, existing: set<Path>)
    requires a == "Q" && b == "QUIT" && c == " q" && d == "quit "
    requires PageFolder(cwd, "q") !in existing && PageFolder(cwd, "quit") !in existing
    ensures Interact([a], cwd, existing).decision == Quit
    ensures Interact([b], cwd, existing).decision == Quit
    ensures Interact([c], cwd, existing).decision == Chosen("q")
    ensures Interact([d], cwd, existing).decision == Chosen("quit")
  {
    assert Lower(a) == "q";
    assert Lower(b) == "quit";
    PaddedQ(c);
    PaddedQuit(d);
    NormalizedAccepted(c, cwd, existing);
    NormalizedAccepted(d, cwd, existing);
    InteractOne(c, cwd, existing);
    InteractOne(d, cwd, existing);
  }

  /** A single answer. */
  lemma InteractOne(x: string, cwd: Path, existing: set<Path>)
    requires !IsQuit(x) && ValidateInput(x, cwd, existing).Valid?
    ensures Interact([x], cwd, existing).decision == Chosen(ValidateInput(x, cwd, existing).pageName)
  {
  }

  /** " q" is not a quit word, but it normalises to the page name "q". */
  lemma PaddedQ(c: string)
    requires c == " q"
    ensures !IsQuit(c) && Trim(c) != "" && Normalize(c) == "q"
    ensures MatchesNamePattern(Normalize(c)) && !EndsWith(Normalize(c), "page")
  {
    var l := Lower(c);
    assert |l| == 2 && l[0] == ' ';
    var q := "q";
    assert TrimStart(c) == q;
    TrimNoWhitespace(q);
    assert Lower(q) == q;
  }

  /** "quit " is not a quit word, but it normalises to the page name "quit". */
  lemma PaddedQuit(d: string)
    requires d == "quit "
    ensures !IsQuit(d) && Trim(d) != "" && Normalize(d) == "quit"
    ensures MatchesNamePattern(Normalize(d)) && !EndsWith(Normalize(d), "page")
  {
    assert |Lower(d)| == 5;
    var quit := "quit";
    assert TrimStart(d) == d;
    assert d[..|d| - 1] == quit;
    TrimNoWhitespace(quit);
    assert TrimEnd(d) == quit;
    assert Lower(quit) == quit;
    assert !EndsWith(quit, "page") by { assert quit[|quit| - 4..] != "page"; }
  }

  /** What the command ends with. */
  datatype Outcome =
    | ArgumentRejected(error: ValidationError)
    | Generated(pageName: string)
    | UserQuit
    | StdinClosed

  /** `process.exit(1)` only for a rejected argument. */
  function ExitCode(o: Outcome): (code: int)
    ensures code == 0 || code == 1
  {
    if o.ArgumentRejected? then 1 else 0
  }

  /** `main`: `args` are the arguments after the command name; with at least
      one, only the first is validated and the prompt is never shown. */
  function Decide(args: seq<string>, answers: seq<string>, cwd: Path, existing: set<Path>): Outcome
  {
    if |args| > 0 then
      match ValidateInput(args[0], cwd, existing)
      case Invalid(e) => ArgumentRejected(e)
      case Valid(name) => Generated(name)
    else
      match Interact(answers, cwd, existing).decision
      case Quit => UserQuit
      case Chosen(name) => Generated(name)
      case InputClosed => StdinClosed
  }

  /** `main` followed by `generatePage` when a name was accepted. */
  method Run(fs: FileSystem, cwd: Path, args: seq<string>, answers: seq<string>) returns (o: Outcome)
    modifies fs
    ensures o == Decide(args, answers, cwd, old(fs.Existing()))
    ensures o.Generated? ==>
      && fs.dirs == old(fs.dirs) + Ancestry(HooksDir(cwd, o.pageName)) + Ancestry(UiDir(cwd, o.pageName))
      && fs.files == ApplyWrites(old(fs.files), PlannedWrites(cwd, o.pageName))
      && fs.trace == old(fs.trace) + Effects(HooksDir(cwd, o.pageName), UiDir(cwd, o.pageName), PlannedWrites(cwd, o.pageName))
    ensures !o.Generated? ==> fs.dirs == old(fs.dirs) && fs.files == old(fs.files) && fs.trace == old(fs.trace)
  {
    if |args| > 0 {
      var v := ValidateInput(args[0], cwd, fs.Existing());
      if v.Invalid? {
        return ArgumentRejected(v.error);
      }
      GeneratePage(fs, cwd, v.pageName);
      return Generated(v.pageName);
    }
    var s := AskPageName(fs, cwd, answers);
    match s.decision {
      case Quit => return UserQuit;
      case InputClosed => return StdinClosed;
      case Chosen(name) =>
        GeneratePage(fs, cwd, name);
        return Generated(name);
    }
  }

  /** Argument mode looks at nothing but the first argument: later
      arguments and the standard input are ignored. */
  lemma ArgumentModeIgnoresRest(args: seq<string>, answers: seq<string>, answers': seq<string>, cwd: Path, existing: set<Path>)
    requires |args| > 0
    ensures Decide(args, answers, cwd, existing) == Decide(args[..1], answers', cwd, existing)
    ensures Decide(args, answers, cwd, existing).Generated? || Decide(args, answers, cwd, existing).ArgumentRejected?
  {
  }

  /** The exit status is 1 exactly when an argument was given and rejected;
      the interactive mode always exits with 0. */
  lemma ExitStatus(args: seq<string>, answers: seq<string>, cwd: Path, existing: set<Path>)
    ensures ExitCode(Decide(args, answers, cwd, existing)) == 1
      <==> |args| > 0 && ValidateInput(args[0], cwd, existing).Invalid?
  {
  }

  /** A chosen page name is the validation result of one of the answers. */
  lemma {:induction false} ChosenComesFromAnswer(answers: seq<string>, cwd: Path, existing: set<Path>)
    requires Interact(answers, cwd, existing).decision.Chosen?
    ensures exists k :: (0 <= k < |answers|
      && ValidateInput(answers[k], cwd, existing) == Valid(Interact(answers, cwd, existing).decision.pageName))
    decreases |answers|
  {
    if !IsQuit(answers[0]) && ValidateInput(answers[0], cwd, existing).Invalid? {
      var rest := answers[1..];
      ChosenComesFromAnswer(rest, cwd, existing);
      var k :| 0 <= k < |rest|
        && ValidateInput(rest[k], cwd, existing) == Valid(Interact(rest, cwd, existing).decision.pageName);
      assert answers[k + 1] == rest[k];
    }
  }

  /** A generated page's name is one validation accepts as itself. */
  lemma GeneratedNameIsValid(args: seq<string>, answers: seq<string>, cwd: Path, existing: set<Path>)
    requires Decide(args, answers, cwd, existing).Generated?
    ensures var name := Decide(args, answers, cwd, existing).pageName;
      ValidateInput(name, cwd, existing) == Valid(name)
  {
    var input: string;
    if |args| > 0 {
      input := args[0];
    } else {
      ChosenComesFromAnswer(answers, cwd, existing);
      var k :| 0 <= k < |answers|
        && ValidateInput(answers[k], cwd, existing) == Valid(Interact(answers, cwd, existing).decision.pageName);
      input := answers[k];
    }
    AcceptedNameIsFixpoint(input, cwd, existing);
  }

  /** Once validation accepted a page name, the folder it is generated into
      held no file of a well-formed filesystem, and every relative import of
      the generated modules resolves to a generated module exporting the
      imported names. */
  lemma GeneratedPageIsSound(name: string, cwd: Path, dirs: set<Path>, files: map<Path, FileContent>)
    requires WellFormed(dirs, files)
    requires ValidateInput(name, cwd, dirs + files.Keys) == Valid(name)
    ensures FreshFolder(files, PageFolder(cwd, name))
    ensures var w := PlannedWrites(cwd, name);
      forall i :: 0 <= i < 6 ==>
        |w[i].0| > 0 && w[i].1.Script? && RelativeImportsSatisfied(ApplyWrites(files, w), w[i].0, w[i].1.source)
  {
    SuccessGuarantees(name, cwd, dirs + files.Keys);
    AbsentDirIsEmpty(dirs, files, PageFolder(cwd, name));
    GeneratedImportsResolve(cwd, name, files);
  }

  /** Generating is not repeatable: after a run that generated the page for
      `input` (the state `Run` promises), validating the same input again
      reports the page folder as existing, and a second run with that input
      as its argument fails with exit status 1. */
  lemma SecondRunFindsFolder(input: string, cwd: Path, dirs: set<Path>, files: map<Path, FileContent>, answers: seq<string>)
    requires ValidateInput(input, cwd, dirs + files.Keys).Valid?
    ensures var name := ValidateInput(input, cwd, dirs + files.Keys).pageName;
      var dirs' := dirs + Ancestry(HooksDir(cwd, name)) + Ancestry(UiDir(cwd, name));
      var files' := ApplyWrites(files, PlannedWrites(cwd, name));
      var o := Decide([input], answers, cwd, dirs' + files'.Keys);
      && ValidateInput(input, cwd, dirs' + files'.Keys) == Invalid(FolderExists(PageFolder(cwd, name)))
      && o == ArgumentRejected(FolderExists(PageFolder(cwd, name)))
      && ExitCode(o) == 1
  {
    var name := ValidateInput(input, cwd, dirs + files.Keys).pageName;
    SuccessGuarantees(input, cwd, dirs + files.Keys);
    var folder := PageFolder(cwd, name);
    var hooks := HooksDir(cwd, name);
    assert hooks[..|folder|] == folder;
    assert folder in Ancestry(hooks);
    var dirs' := dirs + Ancestry(hooks) + Ancestry(UiDir(cwd, name));
    var files' := ApplyWrites(files, PlannedWrites(cwd, name));
    FolderExistsIff(input, cwd, dirs' + files'.Keys, folder);
  }
}
