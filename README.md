# dscore-cli, modelled in Dafny

This project models the `dscore-cli` command-line tool and proves properties of the model. The tool scaffolds React page folders and installs skill documents. Three parts are modelled:

- **`generate-page`** (`bin/commands/generate-page.js`):
  - the kebab-case to PascalCase and camelCase conversions;
  - the page-name validator;
  - the directory and write plan of `generatePage`;
  - the six templates, reduced to their substituted names, imports and exports;
  - the argument mode and the interactive prompt loop.
- **`add-skill`** (`bin/commands/add-skill.js`):
  - the menu choice, read with `parseInt` semantics;
  - the front-matter header and destination path of the installed SKILL.md;
  - the `AVAILABLE_SKILLS` table.
- **`dscore-cli`** (`bin/dscore-cli.js`): the dispatch from the first argument to a command.

The filesystem is a class `Files.FileSystem`:

- a set of directories and a map from file path to content;
- `existsSync` is membership in either one, and `mkdirSync` / `writeFileSync` update them in place;
- a ghost trace records the calls in order.

Paths are sequences of segments, as `path.join` builds them from the working directory and literal sub-paths. Generated modules are abstract:

- their import declarations (names and specifier);
- their exported names;
- a body of opaque literal chunks alternating with the substituted names.

Modules (one file each):

| Module | Contents |
|---|---|
| `Text` | JavaScript `\w`, `trim`, ASCII case mapping |
| `CaseConversion` | `toPascalCase`, `toCamelCase` |
| `Paths` | path helpers |
| `Scripts` | generated modules and relative-import resolution |
| `Files` | the filesystem |
| `PageName` | `validateInput` |
| `Templates` | `getTemplates` |
| `Scaffold` | `generatePage` |
| `PageCommand` | `main` / `askPageName` of generate-page |
| `AddSkill` | the add-skill command |
| `Cli` | the entry point |

Relative imports are resolved by an assumed convention, since no file of the repository names a bundler: extension-less specifiers are resolved webpack/Next.js style, trying the exact path, then `.js`, then `.jsx`. The generated files can only agree with each other under such a convention.

## Model

| member | source | states |
|---|---|---|
| Text.TrimEmptyIffAllWhitespace | bin/commands/generate-page.js:45 | `trim()` yields "" exactly when every character is ECMAScript whitespace or a line terminator |
| Text.TrimIsInfix | bin/commands/generate-page.js:49 | `trim()` returns a contiguous slice of the input; only whitespace lies outside it, and the slice neither starts nor ends with whitespace |
| Text.TrimNoWhitespace | bin/commands/generate-page.js:49 | a string without whitespace is left unchanged by `trim()` |
| CaseConversion.CamelMatchesSegments | bin/commands/generate-page.js:14-15 | when every hyphen is followed by a `\w` character, `toCamelCase` equals the first hyphen-separated segment followed by the other segments capitalised |
| CaseConversion.PascalMatchesSegments | bin/commands/generate-page.js:11-12 | under the same condition, `toPascalCase` equals the concatenation of all segments capitalised |
| CaseConversion.CamelKeepsFirst | bin/commands/generate-page.js:14-15 | `toCamelCase` keeps the first character of a name that does not start with a hyphen |
| CaseConversion.PascalIsCapitalizedCamel | bin/commands/generate-page.js:11-15 | for a name starting with a `\w` character, PascalCase is camelCase with its first character upper-cased; both have the same length |
| CaseConversion.CamelRemovesHyphens | bin/commands/generate-page.js:14-15 | with no dangling hyphen, camelCase contains no '-' and is shorter than the name by its hyphen count |
| CaseConversion.PascalRemovesHyphens | bin/commands/generate-page.js:11-12 | the same for PascalCase |
| CaseConversion.DanglingSurvivesCamel | bin/commands/generate-page.js:14-15 | a hyphen not followed by a `\w` character is never matched by `-\w`, so camelCase keeps a '-' |
| CaseConversion.DanglingSurvivesPascal | bin/commands/generate-page.js:11-12 | the same for PascalCase |
| CaseConversion.HyphenFreeIffNoDangling | bin/commands/generate-page.js:11-15 | camelCase, and likewise PascalCase, is hyphen-free exactly when every hyphen of the name is followed by a `\w` character |
| CaseConversion.CamelChars | bin/commands/generate-page.js:14-15 | every character of camelCase is a character of the name or the upper-case form of one |
| CaseConversion.CamelNoHyphen | bin/commands/generate-page.js:14-15 | a name without hyphens is its own camelCase |
| CaseConversion.CamelConcat | bin/commands/generate-page.js:14-15 | the scan splits at any point not preceded by a hyphen: camelCase of a concatenation is the concatenation of the camelCases |
| CaseConversion.DanglingHyphenSurvives | bin/commands/generate-page.js:11-15 | a hyphen not followed by a `\w` character is kept: "user-" becomes "User-"/"user-", "a--b" becomes "A-B"/"a-B"; the segment-wise reading would give "User" |
| CaseConversion.OneWord | bin/commands/generate-page.js:11-15 | a hyphen-free name starting with a `\w` character is its own camelCase, and its PascalCase upper-cases only the first character |
| CaseConversion.CamelTwoWords | bin/commands/generate-page.js:14-15 | camelCase of "a-b" (hyphen-free words, b starting with `\w`) is a followed by b with its first character upper-cased |
| CaseConversion.PascalTwoWords | bin/commands/generate-page.js:11-12 | PascalCase of "a-b" is a and b, each with its first character upper-cased |
| CaseConversion.GuideExampleUserMgt | bin/commands/generate-page.js:31 | "user-mgt" gives "UserMgt" and "userMgt" |
| CaseConversion.GuideExampleProduct | bin/commands/generate-page.js:32 | "product" gives "Product" and "product" |
| CaseConversion.GuideExampleOrderHistory | bin/commands/generate-page.js:33 | "order-history" gives "OrderHistory" and "orderHistory" |
| Paths.Ancestry | bin/commands/generate-page.js:86-87 | a recursive mkdir leaves exactly the non-empty prefixes of the path as directories, the path itself among them |
| Files.FileSystem.Existing | bin/commands/generate-page.js:66 | `existsSync` reports directories and files alike |
| Files.FileSystem.MakeDirectory | bin/commands/generate-page.js:86-87 | `mkdirSync(p, { recursive: true })` adds every ancestor of p and touches no file |
| Files.FileSystem.Write | bin/commands/generate-page.js:93 | `writeFileSync` creates or replaces one file and touches no directory |
| Files.ApplyDistinctWrites | bin/commands/generate-page.js:93-108 | writing distinct paths in sequence adds exactly those paths, gives each its content and leaves every other file unchanged |
| Files.WritesKeepWellFormed | bin/commands/generate-page.js:86-108 | writes into existing directories keep every file's directory present |
| PageName.PageFolder | bin/commands/generate-page.js:65 | the target folder is `<cwd>/src/page/<name>`, one level below src/page |
| PageName.EmptyIffBlank | bin/commands/generate-page.js:45-47 | the empty-name error is returned exactly for empty or all-whitespace input |
| PageName.SuffixRejected | bin/commands/generate-page.js:51-56 | every non-blank input whose trimmed, lower-cased form ends in "page" is refused, whatever its characters; the suggestion is the name without its final "page" and without one hyphen right before it, if there is one |
| PageName.HyphenPageSubsumed | bin/commands/generate-page.js:51 | the "-page" test is implied by the "page" test |
| PageName.SuffixBeforeCharacters | bin/commands/generate-page.js:51-63 | "1page" gets the suffix error (suggesting "1"), not the character error; "pagepage" suggests "page", which is not validated again |
| PageName.CharactersRejectedIff | bin/commands/generate-page.js:44-63 | the character error is returned exactly for a non-blank input without the "page" suffix whose trimmed, lower-cased form does not match `^[a-z][a-z0-9-]*$`, whatever folders exist |
| PageName.FolderExistsIff | bin/commands/generate-page.js:44-71 | the folder error names a folder exactly when the input passed the first three checks, the folder is `src/page/<normalised name>` and something (directory or file) exists there |
| PageName.CharacterExamples | bin/commands/generate-page.js:58-63 | "user_mgt" and "1abc" get the character error |
| PageName.SuccessGuarantees | bin/commands/generate-page.js:49-73 | an accepted name is the trimmed, lower-cased input, matches `^[a-z][a-z0-9-]*$`, does not end in "page", contains no '/', '.', '\\' or whitespace, and its folder is absent and lies directly under src/page |
| PageName.PatternNamesAccepted | bin/commands/generate-page.js:44-74 | a name matching the pattern, not ending in "page", whose folder is absent, is accepted unchanged |
| PageName.NormalizedAccepted | bin/commands/generate-page.js:44-74 | an input whose trimmed, lower-cased form matches the pattern, does not end in "page" and names an absent folder is accepted as that form |
| PageName.AcceptedNameIsFixpoint | bin/commands/generate-page.js:44-74 | validating an accepted name again accepts it as itself |
| PageName.UpperCaseAccepted | bin/commands/generate-page.js:49 | " UserMgt " and "UserMgt" are accepted as "usermgt", although the guide lists "UserMgt" as a bad example |
| PageName.TrailingHyphenAccepted | bin/commands/generate-page.js:58 | "user-" passes validation and its PascalCase keeps the hyphen ("User-") |
| PageName.DanglingHyphenIffTrailingOrDoubled | bin/commands/generate-page.js:58 | for a name matching the pattern, every hyphen is followed by a word character, and the PascalCase and camelCase forms are hyphen-free, exactly when the name has no trailing and no doubled hyphen |
| PageName.KebabNamesGiveIdentifiers | bin/commands/generate-page.js:11-15 | for an accepted kebab-case name, PascalCase starts with an upper-case letter, camelCase with a lower-case letter, and both consist of letters and digits only |
| Templates.PageNameOnlyInPage | bin/commands/generate-page.js:443-530 | the page component receives only the page name and the Pascal name; the page name goes into its header's route-file instructions (the 2nd, 4th and 8th substitutions) |
| Templates.CamelOnlyInApi | bin/commands/generate-page.js:189-303 | the API module receives only the Pascal and camel names; the camel name goes into its URL keys |
| Templates.OthersOnlyPascal | bin/commands/generate-page.js:139-638 | the constants, hook, search and list modules receive only the Pascal name |
| Scaffold.GeneratePage | bin/commands/generate-page.js:77-136 | `generatePage` first creates components/hooks and components/ui (with their ancestors), then writes the six files in source order; the new directories, files and call trace are stated |
| Scaffold.LayoutDistinct | bin/commands/generate-page.js:93-108 | the six written paths are pairwise distinct |
| Scaffold.LayoutInside | bin/commands/generate-page.js:93-108 | every written path lies inside the page folder |
| Scaffold.LayoutParents | bin/commands/generate-page.js:86-108 | every file is written into a directory the two recursive mkdirs have created |
| Scaffold.GenerationKeepsOtherFiles | bin/commands/generate-page.js:93-108 | generation adds exactly the six planned files, gives each its module, and leaves every file outside the page folder unchanged |
| Scaffold.HookImportsResolve | bin/commands/generate-page.js:310-318 | the hook's "../api" and "../constants" resolve to the written components/api.js and components/constants.js |
| Scaffold.PageImportResolves | bin/commands/generate-page.js:474 | the page's "./components/hooks/use<P>" resolves to the written hook file |
| Scaffold.UiImportsResolve | bin/commands/generate-page.js:538 | the search form's and the list's "../constants" resolve to the written constants module |
| Scaffold.HookSatisfied | bin/commands/generate-page.js:305-320 | every name the hook imports relatively (getOption, get<P>List, the three constants) is exported by the module its specifier resolves to |
| Scaffold.PageSatisfied | bin/commands/generate-page.js:473-474 | the page's relative import `use<P>` is exported by the hook module |
| Scaffold.SearchSatisfied | bin/commands/generate-page.js:537-538 | the search form's relative import, UI_TEXT from "../constants", is exported by the written constants module |
| Scaffold.ListSatisfied | bin/commands/generate-page.js:596-597 | the list's relative import, TABLE_HEADERS and UI_TEXT from "../constants", is exported by the written constants module |
| Scaffold.ApiImportsPackages | bin/commands/generate-page.js:196-198 | the API module imports only through the "@/" alias, never relatively |
| Scaffold.LayoutImportsResolve | bin/commands/generate-page.js:139-638 | writing the six modules into a fresh folder satisfies every relative import of each of them |
| Scaffold.GeneratedImportsResolve | bin/commands/generate-page.js:77-108 | after generating into a folder with no file, every relative import of every generated module resolves to a generated module exporting the imported names; the paths and names agree as strings, and whether the names are JavaScript identifiers is stated separately (PageName.KebabNamesGiveIdentifiers) |
| Scaffold.UserMgtFileNames | bin/commands/generate-page.js:93-105 | for "UserMgt" the files are UserMgtPage.jsx, components/hooks/useUserMgt.js and components/ui/UserMgtSearch.jsx |
| Scaffold.UserMgtListExport | bin/commands/generate-page.js:189-303 | the API module generated for "UserMgt" exports getUserMgtList |
| Scaffold.GuideExampleLayout | bin/commands/generate-page.js:31 | "user-mgt" produces UserMgtPage.jsx, components/hooks/useUserMgt.js and components/ui/UserMgtSearch.jsx under src/page/user-mgt, and its API module exports getUserMgtList |
| Scaffold.LayoutPreservesWellFormed | bin/commands/generate-page.js:86-108 | after the two mkdirs and the six writes, every file's directory and its ancestors exist |
| Scaffold.GenerationPreservesWellFormed | bin/commands/generate-page.js:86-108 | generation keeps a well-formed filesystem well formed |
| PageCommand.AskPageName | bin/commands/generate-page.js:663-682 | the prompt loop returns the decision and the reported validation errors that the answer-by-answer specification gives, without changing the filesystem |
| PageCommand.ClosedIffNoDecisive | bin/commands/generate-page.js:663-682 | the input runs out exactly when no answer is a quit word or a valid name |
| PageCommand.FirstDecisiveWins | bin/commands/generate-page.js:663-682 | the first quit-or-valid answer decides: a quit word quits, otherwise its validated name is chosen; each earlier answer's validation error is reported, in order |
| PageCommand.QuitExamples | bin/commands/generate-page.js:665 | "Q" and "QUIT" quit; " q" and "quit " are not quit words and are accepted as page names "q" and "quit" |
| PageCommand.ExitCode | bin/commands/generate-page.js:646-652 | exit status 1 is reserved for a rejected argument; every other ending exits with 0 |
| PageCommand.Run | bin/commands/generate-page.js:641-685 | `main`: the outcome is the specified decision; the page is generated exactly when a name is accepted, with the two recursive mkdirs, the six writes and their trace, and otherwise the filesystem is unchanged |
| PageCommand.ArgumentModeIgnoresRest | bin/commands/generate-page.js:643-652 | with an argument, only the first argument is validated; later arguments and the input are ignored; the run either generates or is rejected |
| PageCommand.ExitStatus | bin/commands/generate-page.js:646-652 | the command exits with 1 exactly when an argument is given and rejected |
| PageCommand.ChosenComesFromAnswer | bin/commands/generate-page.js:670-678 | a chosen page name is the validation result of one of the answers |
| PageCommand.GeneratedNameIsValid | bin/commands/generate-page.js:646-651 | a generated page's name is accepted by validation as itself |
| PageCommand.SecondRunFindsFolder | bin/commands/generate-page.js:65-87 | after a run generated the page for an input, the same input is refused with the folder error for that page folder, and as an argument it makes the command exit with 1: generation cannot be repeated |
| PageCommand.GeneratedPageIsSound | bin/commands/generate-page.js:65-71 | in a well-formed filesystem, a folder validation found absent holds no file, so every relative import of the generated modules resolves to a generated module exporting the imported names (names are compared as strings, not checked to be identifiers) |
| AddSkill.LeadingDigits | bin/commands/add-skill.js:90 | the digits `parseInt` reads are the longest run of decimal digits at the start |
| AddSkill.DigitsValueOfShow | bin/commands/add-skill.js:90 | the decimal value of a number's rendering is the number |
| AddSkill.LeadingDigitsOfConcat | bin/commands/add-skill.js:90 | parsing stops at the first non-digit |
| AddSkill.ParseIntOfShow | bin/commands/add-skill.js:90 | `parseInt` reads back a rendered number, whatever non-digit text follows |
| AddSkill.ParseIntOfSignedShow | bin/commands/add-skill.js:90 | the same with a leading '+' or '-' |
| AddSkill.ParseIntNaN | bin/commands/add-skill.js:90-92 | `parseInt` gives NaN exactly when no digit follows the optional sign |
| AddSkill.MenuNumbers | bin/commands/add-skill.js:90-106 | typing 1 or 2 (followed by any non-digit, non-blank text) selects that skill, 0 cancels, and every larger number is out of range |
| AddSkill.NegativeIsOutOfRange | bin/commands/add-skill.js:99-104 | a negative number is an error, not a cancel |
| AddSkill.CancelExamples | bin/commands/add-skill.js:90-97 | "", "abc", "0x1" and "-0" cancel |
| AddSkill.SelectExamples | bin/commands/add-skill.js:90-106 | "1abc" selects the first skill; " 2 " and "+2" select the second |
| AddSkill.RefuseExamples | bin/commands/add-skill.js:99-104 | "3" and "-1" are refused |
| AddSkill.SkillContent | bin/commands/add-skill.js:62-67 | the installed text is the front-matter header followed by the document, unchanged |
| AddSkill.SkillFileRoundTrip | bin/commands/add-skill.js:62-67 | when the fields contain no line feed, the installed file reads back as the skill's id, its description line and the unchanged document |
| AddSkill.SkillContentInjective | bin/commands/add-skill.js:62-67 | different documents give different installed files |
| AddSkill.SkillFilePath | bin/commands/add-skill.js:71-72 | SKILL.md sits in `<cwd>/.claude/skills/<id>` |
| AddSkill.SkillPathsDistinct | bin/commands/add-skill.js:71-72 | skills with different ids are installed into different files under .claude/skills |
| AddSkill.AvailableSkillsWellFormed | bin/commands/add-skill.js:8-23 | the menu has two skills with distinct ids, each named after its id, and no field of either breaks the front matter's lines |
| AddSkill.CreateSkillFile | bin/commands/add-skill.js:49-83 | a missing document leaves the filesystem unchanged; otherwise the skill directory is created only if absent, SKILL.md is written with the header and document, and its path is returned |
| AddSkill.SkillExitCode | bin/commands/add-skill.js:92-104 | only exit statuses 0 and 1 occur |
| AddSkill.InstallSkill | bin/commands/add-skill.js:85-137 | `main` ends as the choice dictates; only an installation changes the filesystem: it creates the skill directory recursively when nothing exists at that path, then writes SKILL.md with the front matter and the document, and the trace records those steps |
| AddSkill.InstallExitStatus | bin/commands/add-skill.js:92-104 | the command fails exactly for an out-of-range number or a selected skill whose document is missing |
| AddSkill.InstalledFileReadsBack | bin/commands/add-skill.js:106-110 | an installed skill comes from the menu, lands in its own SKILL.md, and that file reads back as the skill and its document |
| Cli.Run | bin/dscore-cli.js:29-48 | a run exits with the status the dispatched command specifies; a generate-page run leaves the directories, files and trace of a generated page exactly when a page is generated, an add-skill run those of an installed skill exactly when a skill is installed, and every other run (help, unknown command, add-skill without an answer) leaves the filesystem unchanged |
| Cli.Aliases | bin/dscore-cli.js:30-37 | "gp" means "generate-page" and "as" means "add-skill" |
| Cli.HelpCommands | bin/dscore-cli.js:38-43 | "help", "--help", "-h" and a missing command show the help and exit with 0 |
| Cli.UnknownCommands | bin/dscore-cli.js:44-47 | a command is unknown exactly when a first argument is given that is none of the seven words; the run then exits with 1 |
| Cli.CaseSensitive | bin/dscore-cli.js:29-47 | "GP" and "Help" are unknown commands |
| Cli.PageNameArgument | bin/dscore-cli.js:3-4 | the page name is the argument after the command word; further arguments and the input do not matter |

## Left out

- Console output is not modelled: banners, guides, messages, the completion box and `padEnd` layout.
- Prompting, `rl.close()` and `process.exit` become a sequence of answers and an outcome value with an exit status.
- When standard input ends before a decisive answer, the model ends with exit status 0 and changes nothing. The source has no explicit code for this case; the status follows from Node exiting once nothing is pending.
- Filesystem failures are not modelled: permission errors, a full disk, partial output from the non-transactional writes, and the add-skill `catch` branch that exits with 1. Examples of what the model therefore does not capture:
  - a SKILL.md write that fails because a file already occupies the skill directory's path;
  - a bundled document path that names a directory.
- Text.Lower: `toLowerCase` is modelled on ASCII letters only. JavaScript also maps non-ASCII letters, some of them to ASCII (U+212A KELVIN SIGN becomes "k").
- AddSkill.ParseInt: numbers are unbounded integers, not IEEE doubles. Any value above 2 is refused either way.
- Templates.Body: the literal text of the templates is opaque. Only the substituted names, the import declarations and the exports are modelled. Imports that appear only in comments are not imports; this covers the commented-out Search, List and Dialog imports of the page template.
- Module resolution (`Scripts.Resolve`) is an assumed webpack/Next.js-style convention for extension-less specifiers; the repository does not name its bundler. The "@/" alias and package imports are not resolved.
- The bundled skill documents are a read-only map from path to text. Their directory (the package's bin/docs) is a parameter, as are the working directory and the arguments.
- The `require` calls of the dispatcher become a command value. Loading a module has no other effect in the model.
- These do not occur in the code and are not modelled: the vue/react framework flags, the pages/page directory flags, `--help` inside generate-page, and the "last positional argument wins" rule. The code generates React files under src/page and reads only the first argument after the command.
- "UserMgt" is listed as a wrong example in the command's guide (bin/commands/generate-page.js:37), where it is marked as "kebab-case recommended". The code accepts it (as "usermgt"), because the validator lowercases before it checks characters. The model follows the code (PageName.UpperCaseAccepted).
- Names with a trailing or doubled hyphen ("user-", "a--b") pass validation but give PascalCase and camelCase names that still contain a hyphen, which is not a valid JavaScript identifier. The model keeps the code's behaviour. It proves both directions for every name matching the pattern (PageName.DanglingHyphenIffTrailingOrDoubled, CaseConversion.HyphenFreeIffNoDangling) and the examples (CaseConversion.DanglingHyphenSurvives, PageName.TrailingHyphenAccepted), and that kebab-case names give identifiers (PageName.KebabNamesGiveIdentifiers).
