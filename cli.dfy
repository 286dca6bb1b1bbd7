/** The `dscore-cli` entry point: the first argument after the script picks
    the command; the page generator gets the arguments after it. */
module Cli {
  import opened Paths
  import opened Files
  import PageCommand
  import Scaffold
  import AddSkill

  datatype Command = GeneratePage | AddSkill | Help | Unknown(command: string)

  /** The command words the switch recognises. */
  const KnownCommands: set<string> := {"generate-page", "gp", "add-skill", "as", "help", "--help", "-h"}

  /** The `switch (command)` on `args[0]`, where `args` is
      `process.argv.slice(2)`; a missing command shows the help. Words are
      matched exactly, so case matters. */
  function Dispatch(args: seq<string>): Command
  {
    if |args| == 0 then Help
    else if args[0] == "generate-page" || args[0] == "gp" then GeneratePage
    else if args[0] == "add-skill" || args[0] == "as" then AddSkill
    else if args[0] == "help" || args[0] == "--help" || args[0] == "-h" then Help
    else Unknown(args[0])
  }

  /** The exit status of a whole run. The page generator sees the arguments
      after the command word and the answers typed at its prompt; the skill
      installer sees the first answer, and exits quietly with 0 when the
      input ends before one. */
  function ExitStatus(args: seq<string>, answers: seq<string>, cwd: Path, existing: set<Path>,
                      docs: map<Path, string>, docsDir: Path): int
  {
    match Dispatch(args)
    case Help => 0
    case Unknown(_) => 1
    case GeneratePage => PageCommand.ExitCode(PageCommand.Decide(args[1..], answers, cwd, existing))
    case AddSkill =>
      if |answers| == 0 then 0
      else AddSkill.SkillExitCode(AddSkill.InstallOutcome(answers[0], docs, docsDir, cwd))
  }

  /** A whole run of the CLI: its exit status, and the filesystem the
      dispatched command leaves behind. Only a generated page and an
      installed skill change it; the skill installer with no answer at all
      changes nothing. */
  method Run(fs: FileSystem, cwd: Path, docs: map<Path, string>, docsDir: Path, args: seq<string>, answers: seq<string>)
      returns (code: int)
    modifies fs
    ensures code == ExitStatus(args, answers, cwd, old(fs.Existing()), docs, docsDir)
    ensures Dispatch(args).Help? || Dispatch(args).Unknown? ==>
      fs.dirs == old(fs.dirs) && fs.files == old(fs.files) && fs.trace == old(fs.trace)
    ensures Dispatch(args).GeneratePage? ==>
      var o := PageCommand.Decide(args[1..], answers, cwd, old(fs.Existing()));
      if o.Generated? then
        var hooks := Scaffold.HooksDir(cwd, o.pageName);
        var ui := Scaffold.UiDir(cwd, o.pageName);
        var w := Scaffold.PlannedWrites(cwd, o.pageName);
        && fs.dirs == old(fs.dirs) + Ancestry(hooks) + Ancestry(ui)
        && fs.files == ApplyWrites(old(fs.files), w)
        && fs.trace == old(fs.trace) + Scaffold.Effects(hooks, ui, w)
      else
        fs.dirs == old(fs.dirs) && fs.files == old(fs.files) && fs.trace == old(fs.trace)
    ensures Dispatch(args).AddSkill? ==>
      if |answers| > 0 && AddSkill.InstallOutcome(answers[0], docs, docsDir, cwd).Installed? then
        var o := AddSkill.InstallOutcome(answers[0], docs, docsDir, cwd);
        var dir := AddSkill.SkillDir(cwd, o.skill.id);
        var content := Text(AddSkill.SkillContent(o.skill, docs[AddSkill.SourcePath(docsDir, o.skill)]));
        && fs.dirs == (if old(fs.Exists(dir)) then old(fs.dirs) else old(fs.dirs) + Ancestry(dir))
        && fs.files == old(fs.files)[o.path := content]
        && fs.trace == old(fs.trace) + (if old(fs.Exists(dir)) then [] else [MakeDir(dir)]) + [WriteFile(o.path, content)]
      else
        fs.dirs == old(fs.dirs) && fs.files == old(fs.files) && fs.trace == old(fs.trace)
  {
    var command := Dispatch(args);
    match command {
      case Help => code := 0;
      case Unknown(_) => code := 1;
      case GeneratePage =>
        var o := PageCommand.Run(fs, cwd, args[1..], answers);
        code := PageCommand.ExitCode(o);
      case AddSkill =>
        if |answers| == 0 {
          code := 0;
        } else {
          var o := AddSkill.InstallSkill(fs, docs, docsDir, cwd, answers[0]);
          code := AddSkill.SkillExitCode(o);
        }
    }
  }

  /** "gp" is "generate-page" and "as" is "add-skill", whatever follows. */
  lemma Aliases(rest: seq<string>)
    ensures Dispatch(["generate-page"] + rest) == Dispatch(["gp"] + rest) == GeneratePage
    ensures Dispatch(["add-skill"] + rest) == Dispatch(["as"] + rest) == AddSkill
  {
  }

  /** The help is shown for "help", "--help", "-h" and for no command, and
      such a run succeeds. */
  lemma HelpCommands(rest: seq<string>, answers: seq<string>, cwd: Path, existing: set<Path>,
                     docs: map<Path, string>, docsDir: Path)
    ensures Dispatch([]) == Help
    ensures Dispatch(["help"] + rest) == Dispatch(["--help"] + rest) == Dispatch(["-h"] + rest) == Help
    ensures ExitStatus([], answers, cwd, existing, docs, docsDir) == 0
  {
  }

  /** A command is unknown exactly when a first argument is given and it is
      none of the seven words; the run then fails. */
  lemma UnknownCommands(args: seq<string>, answers: seq<string>, cwd: Path, existing: set<Path>,
                        docs: map<Path, string>, docsDir: Path)
    ensures Dispatch(args).Unknown? <==> |args| > 0 && args[0] !in KnownCommands
    ensures Dispatch(args).Unknown? ==>
      Dispatch(args).command == args[0] && ExitStatus(args, answers, cwd, existing, docs, docsDir) == 1
  {
  }

  /** Matching is case-sensitive: "GP" and "Help" are unknown. */
  lemma CaseSensitive()
    ensures Dispatch(["GP"]) == Unknown("GP")
    ensures Dispatch(["Help"]) == Unknown("Help")
  {
    assert "GP" !in KnownCommands;
    assert "Help" !in KnownCommands;
  }

  /** The page name is the argument after the command word: "gp user-mgt"
      validates "user-mgt" and never prompts. */
  lemma PageNameArgument(name: string, rest: seq<string>, answers: seq<string>, answers': seq<string>,
                         cwd: Path, existing: set<Path>, docs: map<Path, string>, docsDir: Path)
    ensures ExitStatus(["gp", name] + rest, answers, cwd, existing, docs, docsDir)
      == ExitStatus(["generate-page", name], answers', cwd, existing, docs, docsDir)
      == PageCommand.ExitCode(PageCommand.Decide([name], [], cwd, existing))
  {
    var args := ["gp", name] + rest;
    assert args[1..] == [name] + rest;
    PageCommand.ArgumentModeIgnoresRest([name] + rest, answers, [], cwd, existing);
    PageCommand.ArgumentModeIgnoresRest([name], answers', [], cwd, existing);
    assert ([name] + rest)[..1] == [name];
    assert ["generate-page", name][1..] == [name];
    assert [name][..1] == [name];
  }
}
