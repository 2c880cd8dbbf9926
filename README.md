# MsBuild documentation generator: the document composers

This project models, in Dafny, the part of the MsBuild documentation generator that decides
what goes into the generated documentation:

- the **project overview** (`ProjectOverviewGenerator`): the root document of an MSBuild
  project file, with an "Overwriteable Properties" chapter for properties that can be set from
  outside, a "Properties" chapter for the others, and a "Targets" chapter that lists every
  target by name ascending, linking each to its own document under `./Targets`;
- the **target overview** (`TargetOverviewSiteGenerator`): one document per target, titled
  with its name, holding a Description chapter, a Parameters chapter, one chapter per output,
  a Target Dependencies table, an Error Handling chapter and one Example chapter per example,
  each only when the target's help or its attributes call for it;
- the **help store** the composers query (`ContainsSection`, `LookUp`, `GetSectionContent`,
  `Remove`, `AddHelpParagraph`), with the semantics of the list-backed help builder the
  unit tests use.

Documents are abstract values (chapters of string contents, tables, code blocks and titled
sub-paragraphs); rendering them as Markdown is outside the model. Each composer has
specification functions that say which chapters a section appends, and a class whose methods
append them step by step as the C# code does, proved equal to the specification. Lemmas then
state what the output promises: which chapters exist and when, their order, that every
property, target, parameter, output, dependency edge, on-error target and example shows up,
once and in order, and that the target table is sorted, a permutation of the targets and stable.

Modules: `Common` (Option), `Strings` (comparison modes, ordinal order, substring
occurrence), `HelpStore`, `Documents`, `MsBuild` (the project, property and target data
the composers read), `ProjectOverview`, `TargetOverview`, and `Scenarios`, which replays the
unit tests' inputs on the model and states what those tests check.

Host settings that the C# code reads from the environment (`Environment.NewLine`, the
directory separator used by `Path.Combine`) are a `Platform` parameter. The code block
parser used for examples (`MsBuildElementHelpCodeBlockUtility.Parse`) is a function parameter.

## Model

| member | source | states |
|---|---|---|
| HelpStore.ContainsSection | Source/Norika.MsBuild.DocumentationGenerator.Business.UnitTest/TargetOverviewSiteGeneratorUnitTest.cs:787-789 | true exactly when some paragraph's name equals the section under the comparison mode |
| HelpStore.LookUp | Source/Norika.MsBuild.DocumentationGenerator.Business.UnitTest/TargetOverviewSiteGeneratorUnitTest.cs:791-795 | returns at most as many paragraphs as the store holds, each named as the section under the comparison mode |
| HelpStore.LookUpFromHelp | Source/Norika.MsBuild.DocumentationGenerator.Business.UnitTest/TargetOverviewSiteGeneratorUnitTest.cs:791-795 | every paragraph LookUp returns is one of the store's paragraphs |
| HelpStore.LookUpSnoc | Source/Norika.MsBuild.DocumentationGenerator.Business.UnitTest/TargetOverviewSiteGeneratorUnitTest.cs:791-795 | a paragraph added at the end is added to the result exactly when it matches |
| HelpStore.LookUpExact | Source/Norika.MsBuild.DocumentationGenerator.Business.UnitTest/TargetOverviewSiteGeneratorUnitTest.cs:797-799 | the one-argument LookUp compares ordinally: it returns paragraphs named exactly the section, and every such paragraph |
| HelpStore.MatchingPositions | Source/Norika.MsBuild.DocumentationGenerator.Business.UnitTest/TargetOverviewSiteGeneratorUnitTest.cs:791-795 | the positions of the matching paragraphs: in range, each a match, strictly increasing |
| HelpStore.MatchingPositionsComplete | Source/Norika.MsBuild.DocumentationGenerator.Business.UnitTest/TargetOverviewSiteGeneratorUnitTest.cs:791-795 | every matching paragraph's position is listed |
| HelpStore.LookUpSelectsMatchesInOrder | Source/Norika.MsBuild.DocumentationGenerator.Business.UnitTest/TargetOverviewSiteGeneratorUnitTest.cs:791-795 | LookUp returns exactly the matching paragraphs, in insertion order (the k-th result is the paragraph at the k-th matching position) |
| HelpStore.LookUpSplit | Source/Norika.MsBuild.DocumentationGenerator.Business.UnitTest/TargetOverviewSiteGeneratorUnitTest.cs:791-795 | LookUp of a joined list is LookUp of the front followed by LookUp of the back |
| HelpStore.LookUpSingle | Source/Norika.MsBuild.DocumentationGenerator.Business.UnitTest/TargetOverviewSiteGeneratorUnitTest.cs:791-795 | LookUp of a single paragraph is that paragraph if it matches, else empty |
| HelpStore.LookUpAllMatch | Source/Norika.MsBuild.DocumentationGenerator.Business.UnitTest/TargetOverviewSiteGeneratorUnitTest.cs:791-795 | when every paragraph matches, LookUp returns the whole store |
| HelpStore.FirstMatch | Source/Norika.MsBuild.DocumentationGenerator.Business.UnitTest/TargetOverviewSiteGeneratorUnitTest.cs:801-804 | the first matching position: it matches, nothing before it matches; none only when nothing matches |
| HelpStore.GetSectionContent | Source/Norika.MsBuild.DocumentationGenerator.Business.UnitTest/TargetOverviewSiteGeneratorUnitTest.cs:801-804 | present iff ContainsSection; then the body of a matching paragraph |
| HelpStore.GetSectionContentIsFirstMatch | Source/Norika.MsBuild.DocumentationGenerator.Business.UnitTest/TargetOverviewSiteGeneratorUnitTest.cs:801-804 | GetSectionContent is the body of the first matching paragraph, null when none |
| HelpStore.QueriesAgree | Source/Norika.MsBuild.DocumentationGenerator.Business.UnitTest/TargetOverviewSiteGeneratorUnitTest.cs:787-804 | the three queries agree: a section is contained iff LookUp is non-empty, and GetSectionContent is the body of LookUp's first paragraph |
| HelpStore.RemoveFirst | Source/Norika.MsBuild.DocumentationGenerator.Business.UnitTest/TargetOverviewSiteGeneratorUnitTest.cs:780-785 | defined iff a paragraph is named exactly the section; removes exactly one paragraph |
| HelpStore.RemoveUndoesAdd | Source/Norika.MsBuild.DocumentationGenerator.Business.UnitTest/TargetOverviewSiteGeneratorUnitTest.cs:780-785 | removing a name right after adding the only paragraph of that name restores the store |
| HelpStore.RemoveTakesOneMatch | Source/Norika.MsBuild.DocumentationGenerator.Business.UnitTest/TargetOverviewSiteGeneratorUnitTest.cs:780-785 | after a removal, LookUp of that name returns one paragraph fewer |
| HelpStore.SectionNamesDiffer | Source/Norika.MsBuild.DocumentationGenerator.Business/TargetOverviewSiteGenerator.cs:68-211 | the five section names differ even when case is ignored, so no paragraph answers two section queries |
| HelpStore.HelpBuilder.constructor | Source/Norika.MsBuild.DocumentationGenerator.Business.UnitTest/TargetOverviewSiteGeneratorUnitTest.cs:771-772 | a new help store is empty |
| HelpStore.HelpBuilder.AddHelpParagraph | Source/Norika.MsBuild.DocumentationGenerator.Business.UnitTest/TargetOverviewSiteGeneratorUnitTest.cs:807-824 | appends exactly the new paragraph at the end; the qualifier is null when not given |
| HelpStore.HelpBuilder.Remove | Source/Norika.MsBuild.DocumentationGenerator.Business.UnitTest/TargetOverviewSiteGeneratorUnitTest.cs:780-785 | succeeds iff a paragraph is named exactly the section; then removes the first such paragraph and keeps every other; otherwise leaves the store unchanged |
| Strings.OccursWithin | Source/Norika.MsBuild.DocumentationGenerator.Business/TargetOverviewSiteGenerator.cs:239-242 | a string occurs wherever a longer string containing it occurs |
| Strings.OccursBeforeSuffix | Source/Norika.MsBuild.DocumentationGenerator.Business/TargetOverviewSiteGenerator.cs:239-242 | an occurrence survives appending more text |
| Strings.OrdinalReflexive | Source/Norika.MsBuild.DocumentationGenerator.Business/ProjectOverviewGenerator.cs:199 | the ordinal name order used for sorting targets is reflexive |
| Strings.OrdinalTotal | Source/Norika.MsBuild.DocumentationGenerator.Business/ProjectOverviewGenerator.cs:199 | the ordinal name order is total |
| Strings.OrdinalTransitive | Source/Norika.MsBuild.DocumentationGenerator.Business/ProjectOverviewGenerator.cs:199 | the ordinal name order is transitive |
| ProjectOverview.SynopsisOrDescription | Source/Norika.MsBuild.DocumentationGenerator.Business/ProjectOverviewGenerator.cs:289-306 | present iff a SYNOPSIS or DESCRIPTION section exists (case ignored); it is a paragraph of the help, a SYNOPSIS one whenever one exists, else a DESCRIPTION one |
| ProjectOverview.DescriptionCellFallback | Source/Norika.MsBuild.DocumentationGenerator.Business/ProjectOverviewGenerator.cs:249-252 | the description cell is the first synopsis body, else the first description body, else the empty string |
| ProjectOverview.WithSetter | Source/Norika.MsBuild.DocumentationGenerator.Business/ProjectOverviewGenerator.cs:249 | every selected property has the requested setter flag |
| ProjectOverview.WithSetterSnoc | Source/Norika.MsBuild.DocumentationGenerator.Business/ProjectOverviewGenerator.cs:249 | a property added at the end is selected exactly when it has the requested flag |
| ProjectOverview.WithSetterSplit | Source/Norika.MsBuild.DocumentationGenerator.Business/ProjectOverviewGenerator.cs:276 | selection keeps declaration order (it distributes over joining lists) |
| ProjectOverview.WithSetterNonEmpty | Source/Norika.MsBuild.DocumentationGenerator.Business/ProjectOverviewGenerator.cs:263 | the selection is non-empty iff some property has the flag (the Any/All guards) |
| ProjectOverview.SettablePartition | Source/Norika.MsBuild.DocumentationGenerator.Business/ProjectOverviewGenerator.cs:234-280 | every property lands in exactly one of the two property tables (multiset and count) |
| ProjectOverview.SelectedRowsSnoc | Source/Norika.MsBuild.DocumentationGenerator.Business/ProjectOverviewGenerator.cs:249-252 | a property added at the end adds its row to the table exactly when it is selected |
| ProjectOverview.PropertyRows | Source/Norika.MsBuild.DocumentationGenerator.Business/ProjectOverviewGenerator.cs:249-252 | one (name, description, condition) row per property, in order |
| ProjectOverview.PropertyChapterIffRows | Source/Norika.MsBuild.DocumentationGenerator.Business/ProjectOverviewGenerator.cs:234-280 | each property chapter exists exactly when its table would have rows, and then holds the intro and the table of the selected properties |
| ProjectOverview.InsertIsPermutation | Source/Norika.MsBuild.DocumentationGenerator.Business/ProjectOverviewGenerator.cs:199 | inserting a target into a list yields a permutation of the two |
| ProjectOverview.InsertKeepsLowerBound | Source/Norika.MsBuild.DocumentationGenerator.Business/ProjectOverviewGenerator.cs:199 | a name at or below the inserted target and every listed one stays at or below every target of the result |
| ProjectOverview.InsertKeepsSorted | Source/Norika.MsBuild.DocumentationGenerator.Business/ProjectOverviewGenerator.cs:199 | inserting into a list sorted by name keeps it sorted |
| ProjectOverview.InsertIsStable | Source/Norika.MsBuild.DocumentationGenerator.Business/ProjectOverviewGenerator.cs:199 | insertion keeps the relative order of targets with equal names |
| ProjectOverview.SortByName | Source/Norika.MsBuild.DocumentationGenerator.Business/ProjectOverviewGenerator.cs:199 | OrderBy by name: the result is sorted, a permutation of the input, and stable |
| ProjectOverview.NamedCons | Source/Norika.MsBuild.DocumentationGenerator.Business/ProjectOverviewGenerator.cs:199 | the targets of one name in a list with a new head: the head if it has that name, then those of the rest |
| ProjectOverview.TargetHyperlinkPointsAtTargetDocument | Source/Norika.MsBuild.DocumentationGenerator.Business/ProjectOverviewGenerator.cs:212-226 | the link shows the target's name, points at "./Targets/<title>.<extension>" of the target's own document (or at the bare file name when the name is rooted), with the fixed tooltip |
| ProjectOverview.TargetRows | Source/Norika.MsBuild.DocumentationGenerator.Business/ProjectOverviewGenerator.cs:199-203 | one (link, description) row per target, in the given order |
| ProjectOverview.TargetTableListsEveryTargetByName | Source/Norika.MsBuild.DocumentationGenerator.Business/ProjectOverviewGenerator.cs:183-204 | the Targets table has one row per target, rows ascending by name, every target's row present |
| ProjectOverview.GlobalPropertyTitles | Source/Norika.MsBuild.DocumentationGenerator.Business/ProjectOverviewGenerator.cs:261-280 | the Overwriteable Properties chapter exists iff the list is non-null and some property is settable |
| ProjectOverview.PropertyTitles | Source/Norika.MsBuild.DocumentationGenerator.Business/ProjectOverviewGenerator.cs:234-253 | the Properties chapter exists iff the list is non-null and some property is not settable |
| ProjectOverview.TargetTitles | Source/Norika.MsBuild.DocumentationGenerator.Business/ProjectOverviewGenerator.cs:183-204 | the Targets chapter exists iff the target list is non-null and non-empty |
| ProjectOverview.OverviewChapterOrder | Source/Norika.MsBuild.DocumentationGenerator.Business/ProjectOverviewGenerator.cs:128-146 | chapters come in the order Overwriteable Properties, Properties, Targets, each exactly when it has something to list |
| ProjectOverview.ProjectOverviewGenerator.constructor | Source/Norika.MsBuild.DocumentationGenerator.Business/ProjectOverviewGenerator.cs:64-71 | the output document is created once, from the project file's name, with the builder's extension, and empty |
| ProjectOverview.ProjectOverviewGenerator.CreateBody | Source/Norika.MsBuild.DocumentationGenerator.Business/ProjectOverviewGenerator.cs:128-146 | appends the three sections in order; reports failure exactly when the target list is null, after the property chapters were appended |
| ProjectOverview.ProjectOverviewGenerator.AppendTargetSection | Source/Norika.MsBuild.DocumentationGenerator.Business/ProjectOverviewGenerator.cs:183-204 | appends the Targets chapter (rows sorted by name) exactly when there are targets; keeps title and extension |
| ProjectOverview.ProjectOverviewGenerator.AppendPropertySection | Source/Norika.MsBuild.DocumentationGenerator.Business/ProjectOverviewGenerator.cs:234-253 | appends the Properties chapter of the non-settable properties, exactly as specified |
| ProjectOverview.ProjectOverviewGenerator.AppendGlobalPropertySection | Source/Norika.MsBuild.DocumentationGenerator.Business/ProjectOverviewGenerator.cs:261-280 | appends the Overwriteable Properties chapter of the settable properties, exactly as specified |
| TargetOverview.DescriptionIsFirstDescriptionParagraph | Source/Norika.MsBuild.DocumentationGenerator.Business/TargetOverviewSiteGenerator.cs:68-83 | the Description chapter exists iff some paragraph is named DESCRIPTION in any case, and holds the body of the first such paragraph |
| TargetOverview.ParameterParagraphs | Source/Norika.MsBuild.DocumentationGenerator.Business/TargetOverviewSiteGenerator.cs:99-112 | one "Parameter <qualifier>" sub-paragraph per parameter paragraph, in order |
| TargetOverview.ParametersListEveryParameterInOrder | Source/Norika.MsBuild.DocumentationGenerator.Business/TargetOverviewSiteGenerator.cs:92-113 | the Parameters chapter exists iff a PARAMETER paragraph does, and lists each one in help order with its qualifier and body |
| TargetOverview.OutputChaptersOf | Source/Norika.MsBuild.DocumentationGenerator.Business/TargetOverviewSiteGenerator.cs:127-140 | one "Outputs <qualifier>" chapter per output paragraph, in order |
| TargetOverview.OutputsOneChapterPerParagraph | Source/Norika.MsBuild.DocumentationGenerator.Business/TargetOverviewSiteGenerator.cs:122-141 | every OUTPUTS paragraph gets one chapter of its own, in help order |
| TargetOverview.OutputTitles | Source/Norika.MsBuild.DocumentationGenerator.Business/TargetOverviewSiteGenerator.cs:131-133 | every output chapter's title starts with "Outputs " |
| TargetOverview.DependencyRowsOf | Source/Norika.MsBuild.DocumentationGenerator.Business/TargetOverviewSiteGenerator.cs:163-182 | one row per entry of a dependency list, in order |
| TargetOverview.DependencyRowsSnoc | Source/Norika.MsBuild.DocumentationGenerator.Business/TargetOverviewSiteGenerator.cs:163-182 | an entry added at the end of a dependency list adds its row at the end of the table |
| TargetOverview.DependencyRowsStep | Source/Norika.MsBuild.DocumentationGenerator.Business/TargetOverviewSiteGenerator.cs:163-182 | one loop step: the rows so far plus the next entry's row are the rows of the next longer prefix |
| TargetOverview.DependencyTableListsEveryEdge | Source/Norika.MsBuild.DocumentationGenerator.Business/TargetOverviewSiteGenerator.cs:151-183 | the dependency table lists the depends-on, then after, then before targets, every entry kept, each with its kind and description |
| TargetOverview.DependencyChapterIffEdge | Source/Norika.MsBuild.DocumentationGenerator.Business/TargetOverviewSiteGenerator.cs:154 | with the flag as the model library derives it, the chapter exists iff an edge exists, and has one row per edge |
| TargetOverview.BulletsSnoc | Source/Norika.MsBuild.DocumentationGenerator.Business/TargetOverviewSiteGenerator.cs:239-242 | one more on-error target adds its list line at the end |
| TargetOverview.BulletsSplit | Source/Norika.MsBuild.DocumentationGenerator.Business/TargetOverviewSiteGenerator.cs:239-242 | the list lines of a joined list are those of the front, then those of the back |
| TargetOverview.BulletOccurs | Source/Norika.MsBuild.DocumentationGenerator.Business/TargetOverviewSiteGenerator.cs:239-242 | each on-error target's list line occurs in the text |
| TargetOverview.ErrorHandlingListsEveryOnErrorTarget | Source/Norika.MsBuild.DocumentationGenerator.Business/TargetOverviewSiteGenerator.cs:220-245 | the Error Handling chapter exists iff there are on-error targets; its text opens with the sentence naming the target and lists each on-error target on its own line |
| TargetOverview.ExampleChaptersOf | Source/Norika.MsBuild.DocumentationGenerator.Business/TargetOverviewSiteGenerator.cs:197-210 | one Example chapter per example paragraph, holding its parsed code, in order |
| TargetOverview.ExamplesOneChapterPerParagraph | Source/Norika.MsBuild.DocumentationGenerator.Business/TargetOverviewSiteGenerator.cs:191-211 | every EXAMPLE paragraph gets one "Example" chapter with a code block of its parsed code and language, in help order |
| TargetOverview.ExampleTitles | Source/Norika.MsBuild.DocumentationGenerator.Business/TargetOverviewSiteGenerator.cs:201 | the example chapters are all titled "Example", one per EXAMPLE paragraph |
| TargetOverview.Repeat | Source/Norika.MsBuild.DocumentationGenerator.Business/TargetOverviewSiteGenerator.cs:201 | n copies of a title |
| TargetOverview.SingleSectionTitles | Source/Norika.MsBuild.DocumentationGenerator.Business/TargetOverviewSiteGenerator.cs:68-245 | Description, Parameters, Target Dependencies and Error Handling each appear once exactly under their guard, never otherwise |
| TargetOverview.TitlesOfSections | Source/Norika.MsBuild.DocumentationGenerator.Business/TargetOverviewSiteGenerator.cs:51-56 | the titles of the six sections, joined, are the titles of the whole |
| TargetOverview.OverviewSectionOrder | Source/Norika.MsBuild.DocumentationGenerator.Business/TargetOverviewSiteGenerator.cs:47-59 | the chapter titles come in the fixed section order, each section as often as the help or the target calls for |
| TargetOverview.OverviewChapterCount | Source/Norika.MsBuild.DocumentationGenerator.Business/TargetOverviewSiteGenerator.cs:47-59 | the chapter count is one per present single section plus one per OUTPUTS and per EXAMPLE paragraph |
| TargetOverview.TargetOverviewSiteGenerator.constructor | Source/Norika.MsBuild.DocumentationGenerator.Business/TargetOverviewSiteGenerator.cs:28-31 | the composer keeps the document builder it is given |
| TargetOverview.TargetOverviewSiteGenerator.CreateOverview | Source/Norika.MsBuild.DocumentationGenerator.Business/TargetOverviewSiteGenerator.cs:47-59 | the document is titled with the target's name, has the builder's extension and holds the six sections in order |
| TargetOverview.TargetOverviewSiteGenerator.AppendDescriptionSection | Source/Norika.MsBuild.DocumentationGenerator.Business/TargetOverviewSiteGenerator.cs:68-83 | appends exactly the specified Description chapter |
| TargetOverview.TargetOverviewSiteGenerator.AppendParameterSection | Source/Norika.MsBuild.DocumentationGenerator.Business/TargetOverviewSiteGenerator.cs:92-113 | appends exactly the specified Parameters chapter |
| TargetOverview.TargetOverviewSiteGenerator.AppendOutputSection | Source/Norika.MsBuild.DocumentationGenerator.Business/TargetOverviewSiteGenerator.cs:122-141 | appends exactly the specified output chapters |
| TargetOverview.TargetOverviewSiteGenerator.AppendDependencySection | Source/Norika.MsBuild.DocumentationGenerator.Business/TargetOverviewSiteGenerator.cs:151-183 | appends exactly the specified dependency table |
| TargetOverview.TargetOverviewSiteGenerator.AppendErrorHandlingSection | Source/Norika.MsBuild.DocumentationGenerator.Business/TargetOverviewSiteGenerator.cs:220-245 | appends exactly the specified Error Handling chapter, built line by line |
| TargetOverview.TargetOverviewSiteGenerator.AppendExampleSection | Source/Norika.MsBuild.DocumentationGenerator.Business/TargetOverviewSiteGenerator.cs:191-211 | appends exactly the specified Example chapters |
| Scenarios.OnlySection | Source/Norika.MsBuild.DocumentationGenerator.Business.UnitTest/TargetOverviewSiteGeneratorUnitTest.cs:787-795 | a store whose paragraphs all carry one section name: LookUp returns it whole, and no other name is contained |
| Scenarios.OverviewWithoutHelp | Source/Norika.MsBuild.DocumentationGenerator.Business/TargetOverviewSiteGenerator.cs:47-59 | a target without help gets only its dependency and error handling chapters |
| Scenarios.OverviewOfHelpOnly | Source/Norika.MsBuild.DocumentationGenerator.Business/TargetOverviewSiteGenerator.cs:47-59 | a target without dependencies or on-error targets gets only the chapters its help yields |
| Scenarios.ErrorHandlingNamesTheOnErrorTarget | Source/Norika.MsBuild.DocumentationGenerator.Business.UnitTest/TargetOverviewSiteGeneratorUnitTest.cs:17-56 | a target with one on-error target gets only an Error Handling chapter, whose text names that target |
| Scenarios.DependencyRowsOfOneKind | Source/Norika.MsBuild.DocumentationGenerator.Business.UnitTest/TargetOverviewSiteGeneratorUnitTest.cs:58-209 | two depends-on, after or before targets give a one-chapter table with one row per target, typed with its kind |
| Scenarios.DescriptionOnly | Source/Norika.MsBuild.DocumentationGenerator.Business.UnitTest/TargetOverviewSiteGeneratorUnitTest.cs:394-487 | one upper-case DESCRIPTION paragraph yields one Description chapter holding its text and no parameter, output or example chapters |
| Scenarios.DescriptionChapterHoldsTheDescription | Source/Norika.MsBuild.DocumentationGenerator.Business.UnitTest/TargetOverviewSiteGeneratorUnitTest.cs:394-487 | an upper-case DESCRIPTION paragraph gives exactly one Description chapter holding its text, in a document titled with the target |
| Scenarios.TwoParameterParagraphs | Source/Norika.MsBuild.DocumentationGenerator.Business.UnitTest/TargetOverviewSiteGeneratorUnitTest.cs:488-703 | two PARAMETER paragraphs give one Parameters chapter with a titled sub-paragraph each |
| Scenarios.ParametersOnly | Source/Norika.MsBuild.DocumentationGenerator.Business.UnitTest/TargetOverviewSiteGeneratorUnitTest.cs:488-703 | two PARAMETER paragraphs yield no description, output or example chapters |
| Scenarios.ParameterParagraphsCarryTheirNames | Source/Norika.MsBuild.DocumentationGenerator.Business.UnitTest/TargetOverviewSiteGeneratorUnitTest.cs:488-703 | the whole overview of that target is that Parameters chapter |
| Scenarios.ExamplesOnly | Source/Norika.MsBuild.DocumentationGenerator.Business.UnitTest/TargetOverviewSiteGeneratorUnitTest.cs:253-358 | two EXAMPLE paragraphs yield one Example chapter each and no description, parameter or output chapters |
| Scenarios.ExampleChaptersHoldTheCode | Source/Norika.MsBuild.DocumentationGenerator.Business.UnitTest/TargetOverviewSiteGeneratorUnitTest.cs:253-358 | two EXAMPLE paragraphs give two Example chapters, each a code block holding its code |
| Scenarios.OnePropertyWithoutTargets | Source/Norika.MsBuild.DocumentationGenerator.Business.UnitTest/GeneratorUnitTest.cs:17-131 | one non-settable property and no targets give success and a single Properties chapter whose one row starts with the property's name; no Targets chapter |

## Left out

- Generator.cs (the orchestration that loads files, writes the overview and one document per target in parallel) is not part of this model; the composers are modelled from the point where a project and a file name are in hand.
- Loading a project from its file text (`MsBuildProjectFile.LoadContent`, `IFile.ReadAllText`) and the constructors that do it: the project is a parameter.
- File system, file writers, logging (`Log.WriteError`) and `Print`/Markdown rendering: I/O, represented only by the document value.
- The example parser is a total function parameter; a parser failure (an exception in the C# code) is not modelled.
- `OrderBy` uses the current culture's string comparer; the model sorts by ordinal character order, stably, as OrderBy is stable.
- Case-insensitive comparison folds ASCII letters only; other Unicode case mappings are not modelled.
- `Path.Combine`: the alternative separator, volume separators and invalid-character checks are not modelled; only the directory separator and rooted second arguments are.
- ProjectOverview.TargetHyperlinkPointsAtTargetDocument: stated only for '/' and '\' as the directory separator, the separators of the supported platforms.
- Null help stores, null list elements, null names, contents and conditions: the model has no null strings or null elements; only the project's property and target lists may be null.
- CreateBody catches every exception; the model captures the one the composed code can raise on a well-formed project (a null target list); other exceptions are not modelled.
- The test help builder sets up `Count` once, when the store is still empty, and `IsReadOnly`; the model uses the store's real length and has no read-only flag.
- Documents are values: the C# composers mutate a shared document object in place; aliasing of that object is not modelled (the target composer returns the extended document instead).
- Scenarios.ExampleChaptersHoldTheCode: stated only for a parser that keeps the XML content as it is, as the parser the test runs against does.
- The spellings of the help section name constants (Synopsis, Description, Parameter, Outputs) are immaterial since every lookup ignores case; the Example name is "Example", the title the tests expect.
