/**
  * The target overview composer: one document per MSBuild target, titled with the target's
  * name, holding in this order its description, its parameters, one chapter per output, its
  * dependencies, its error handling and one chapter per example, each only when the target
  * has something to say there. The specification functions say what each section appends;
  * TargetOverviewSiteGenerator appends them step by step the way the source does.
  */
module TargetOverview {
  import opened Common
  import opened Strings
  import opened HelpStore
  import opened Documents
  import opened MsBuild

  const DescriptionTitle := "Description"
  const ParametersTitle := "Parameters"
  const DependenciesTitle := "Target Dependencies"
  const ErrorHandlingTitle := "Error Handling"
  const DependencyHeaders: seq<string> := ["Target", "Dependency Type", "Dependency Description"]

  /** What the help's code block parser yields for an example: its language and its code. */
  datatype CodeSample = CodeSample(language: string, content: string)

  /** A `{0}` placeholder filled with a string that may be null: null formats as nothing. */
  function FormatArgument(x: Option<string>): string
  {
    match x
    case None => ""
    case Some(s) => s
  }

  /* ---------------------------------------------------------------------------------------
   * Description
   * ------------------------------------------------------------------------------------- */

  /** What `AppendDescriptionSection` appends: a "Description" chapter holding the body of the
    * first DESCRIPTION paragraph, when there is one. Joining one string gives that string. */
  function DescriptionChapters(help: Help): seq<Chapter>
  {
    if !ContainsSection(help, DescriptionSection, OrdinalIgnoreCase) then []
    else [Chapter(DescriptionTitle,
                  [StringContent(GetSectionContent(help, DescriptionSection, OrdinalIgnoreCase).value)])]
  }

  /** The Description chapter exists iff some paragraph is named DESCRIPTION in any case, and
    * then holds the body of the first such paragraph and nothing else. */
  lemma DescriptionIsFirstDescriptionParagraph(help: Help)
    ensures DescriptionChapters(help) != [] <==>
              exists i :: 0 <= i < |help| && IsMatch(help[i], DescriptionSection, OrdinalIgnoreCase)
    ensures DescriptionChapters(help) != [] ==>
              exists i :: 0 <= i < |help| && IsMatch(help[i], DescriptionSection, OrdinalIgnoreCase)
                          && (forall j :: 0 <= j < i ==> !IsMatch(help[j], DescriptionSection, OrdinalIgnoreCase))
                          && DescriptionChapters(help) == [Chapter("Description", [StringContent(help[i].content)])]
  {
    GetSectionContentIsFirstMatch(help, DescriptionSection, OrdinalIgnoreCase);
    match FirstMatch(help, DescriptionSection, OrdinalIgnoreCase)
    case None =>
    case Some(i) =>
      assert IsMatch(help[i], DescriptionSection, OrdinalIgnoreCase);
  }

  /* ---------------------------------------------------------------------------------------
   * Parameters
   * ------------------------------------------------------------------------------------- */

  /** One "Parameter <qualifier>" sub-paragraph holding the parameter's help body. */
  function ParameterParagraph(p: HelpParagraph): Element
  {
    Paragraph("Parameter " + FormatArgument(p.additional), [StringContent(p.content)])
  }

  /** One sub-paragraph per PARAMETER paragraph, in order. */
  function ParameterParagraphs(ps: seq<HelpParagraph>): (r: seq<Element>)
    ensures |r| == |ps|
    ensures forall k :: 0 <= k < |ps| ==> r[k] == ParameterParagraph(ps[k])
    decreases |ps|
  {
    if ps == [] then [] else ParameterParagraphs(ps[..|ps| - 1]) + [ParameterParagraph(ps[|ps| - 1])]
  }

  /** What `AppendParameterSection` appends: one "Parameters" chapter with a sub-paragraph per
    * PARAMETER paragraph, when there is one. */
  function ParameterChapters(help: Help): seq<Chapter>
  {
    if !ContainsSection(help, ParameterSection, OrdinalIgnoreCase) then []
    else [Chapter(ParametersTitle, ParameterParagraphs(LookUp(help, ParameterSection, OrdinalIgnoreCase)))]
  }

  /** The Parameters chapter exists iff some PARAMETER paragraph does, and then lists every
    * PARAMETER paragraph once, in the order of the help, titled with its qualifier. */
  lemma ParametersListEveryParameterInOrder(help: Help)
    ensures ParameterChapters(help) != [] <==>
              exists i :: 0 <= i < |help| && IsMatch(help[i], ParameterSection, OrdinalIgnoreCase)
    ensures ParameterChapters(help) != [] ==>
              var pos := MatchingPositions(help, ParameterSection, OrdinalIgnoreCase);
              var body := ParameterChapters(help)[0].body;
              && |ParameterChapters(help)| == 1
              && ParameterChapters(help)[0].title == "Parameters"
              && |body| == |pos|
              && forall k :: 0 <= k < |pos| ==>
                   body[k] == Paragraph("Parameter " + FormatArgument(help[pos[k]].additional),
                                        [StringContent(help[pos[k]].content)])
  {
    LookUpSelectsMatchesInOrder(help, ParameterSection, OrdinalIgnoreCase);
  }

  /* ---------------------------------------------------------------------------------------
   * Outputs
   * ------------------------------------------------------------------------------------- */

  /** An "Outputs <qualifier>" chapter holding the output's help body. */
  function OutputChapter(p: HelpParagraph): Chapter
  {
    Chapter("Outputs " + FormatArgument(p.additional), [StringContent(p.content)])
  }

  function OutputChaptersOf(ps: seq<HelpParagraph>): (r: seq<Chapter>)
    ensures |r| == |ps|
    ensures forall k :: 0 <= k < |ps| ==> r[k] == OutputChapter(ps[k])
    decreases |ps|
  {
    if ps == [] then [] else OutputChaptersOf(ps[..|ps| - 1]) + [OutputChapter(ps[|ps| - 1])]
  }

  /** What `AppendOutputSection` appends: a chapter per OUTPUTS paragraph. */
  function OutputChapters(help: Help): seq<Chapter>
  {
    if !ContainsSection(help, OutputsSection, OrdinalIgnoreCase) then []
    else OutputChaptersOf(LookUp(help, OutputsSection, OrdinalIgnoreCase))
  }

  /** Every OUTPUTS paragraph gets a chapter of its own, in the order of the help. */
  lemma OutputsOneChapterPerParagraph(help: Help)
    ensures var pos := MatchingPositions(help, OutputsSection, OrdinalIgnoreCase);
            && |OutputChapters(help)| == |pos|
            && forall k :: 0 <= k < |pos| ==>
                 OutputChapters(help)[k] == Chapter("Outputs " + FormatArgument(help[pos[k]].additional),
                                                    [StringContent(help[pos[k]].content)])
  {
    LookUpSelectsMatchesInOrder(help, OutputsSection, OrdinalIgnoreCase);
    QueriesAgree(help, OutputsSection, OrdinalIgnoreCase);
  }

  /* ---------------------------------------------------------------------------------------
   * Target dependencies
   * ------------------------------------------------------------------------------------- */

  /** The three dependency lists a dependency row can come from. */
  datatype DependencyKind = DependsOnTargets | AfterTargets | BeforeTargets

  /** The text of the "Dependency Type" column. */
  function KindName(kind: DependencyKind): string
  {
    match kind
    case DependsOnTargets => "DependsOnTargets"
    case AfterTargets => "AfterTargets"
    case BeforeTargets => "BeforeTargets"
  }

  /** The text of the "Dependency Description" column for target `name` and its neighbour `other`. */
  function DependencyDescription(kind: DependencyKind, name: string, other: string): string
  {
    match kind
    case DependsOnTargets => "Calls the target " + other + " before execution of " + name + "."
    case AfterTargets => "Runs the target " + name + " after the execution of " + other + " has finished."
    case BeforeTargets => "Runs the target " + name + " before the execution of " + other + " starts."
  }

  function DependencyRow(kind: DependencyKind, name: string, other: string): seq<Cell>
  {
    [TextCell(other), TextCell(KindName(kind)), TextCell(DependencyDescription(kind, name, other))]
  }

  /** One row per entry of one dependency list, in order. */
  function DependencyRowsOf(kind: DependencyKind, name: string, others: seq<string>): (r: seq<seq<Cell>>)
    ensures |r| == |others|
    ensures forall k :: 0 <= k < |others| ==> r[k] == DependencyRow(kind, name, others[k])
    decreases |others|
  {
    if others == [] then []
    else DependencyRowsOf(kind, name, others[..|others| - 1]) + [DependencyRow(kind, name, others[|others| - 1])]
  }

  /** Extending a dependency list by one entry adds that entry's row at the end. */
  lemma DependencyRowsSnoc(kind: DependencyKind, name: string, others: seq<string>, other: string)
    ensures DependencyRowsOf(kind, name, others + [other])
            == DependencyRowsOf(kind, name, others) + [DependencyRow(kind, name, other)]
  {
    assert (others + [other])[..|others|] == others;
  }

  /** One loop step over a dependency list: the rows so far, extended by the next entry's row,
    * are the rows of a prefix one longer. */
  lemma DependencyRowsStep(before: seq<seq<Cell>>, kind: DependencyKind, name: string, others: seq<string>, i: int)
    requires 0 <= i < |others|
    ensures before + DependencyRowsOf(kind, name, others[..i]) + [DependencyRow(kind, name, others[i])]
            == before + DependencyRowsOf(kind, name, others[..i + 1])
  {
    TakeSnoc(others, i);
    DependencyRowsSnoc(kind, name, others[..i], others[i]);
  }

  /** The rows of the dependency table: depends-on rows, then after rows, then before rows. */
  function DependencyRows(t: Target): seq<seq<Cell>>
  {
    DependencyRowsOf(DependsOnTargets, t.name, t.dependsOnTargets)
    + DependencyRowsOf(AfterTargets, t.name, t.afterTargets)
    + DependencyRowsOf(BeforeTargets, t.name, t.beforeTargets)
  }

  /** What `AppendDependencySection` appends: the "Target Dependencies" chapter whenever the
    * target says it has dependencies. */
  function DependencyChapters(t: Target): seq<Chapter>
  {
    if !t.hasTargetDependencies then []
    else [Chapter(DependenciesTitle, [TableContent(Table(DependencyHeaders, DependencyRows(t)))])]
  }

  /** The kind of the row at position `k` of the dependency table. */
  function KindAt(t: Target, k: int): DependencyKind
  {
    if k < |t.dependsOnTargets| then DependsOnTargets
    else if k < |t.dependsOnTargets| + |t.afterTargets| then AfterTargets
    else BeforeTargets
  }

  /** Read top to bottom, the first column of the dependency table is the depends-on list, then
    * the after list, then the before list, every entry kept (duplicates included); each row's
    * type names the list it came from, and its description names the target and the neighbour. */
  lemma DependencyTableListsEveryEdge(t: Target)
    ensures var rows := DependencyRows(t);
            var all := t.dependsOnTargets + t.afterTargets + t.beforeTargets;
            && |rows| == |all|
            && forall k :: 0 <= k < |rows| ==>
                 rows[k] == [TextCell(all[k]), TextCell(KindName(KindAt(t, k))),
                             TextCell(DependencyDescription(KindAt(t, k), t.name, all[k]))]
  {
    var d := DependencyRowsOf(DependsOnTargets, t.name, t.dependsOnTargets);
    var a := DependencyRowsOf(AfterTargets, t.name, t.afterTargets);
    var b := DependencyRowsOf(BeforeTargets, t.name, t.beforeTargets);
    var all := t.dependsOnTargets + t.afterTargets + t.beforeTargets;
    forall k | 0 <= k < |all|
      ensures (d + a + b)[k] == [TextCell(all[k]), TextCell(KindName(KindAt(t, k))),
                                 TextCell(DependencyDescription(KindAt(t, k), t.name, all[k]))]
    {
      if k < |d| {
        assert all[k] == t.dependsOnTargets[k];
      } else if k < |d| + |a| {
        assert all[k] == t.afterTargets[k - |d|];
      } else {
        assert all[k] == t.beforeTargets[k - |d| - |a|];
      }
    }
  }

  /** With the flag as the model library derives it, the chapter is there exactly when the
    * target has a dependency edge, and then it has one row per edge. */
  lemma DependencyChapterIffEdge(t: Target)
    requires HasConsistentDependencyFlag(t)
    ensures DependencyChapters(t) != [] <==>
              t.dependsOnTargets != [] || t.afterTargets != [] || t.beforeTargets != []
    ensures DependencyChapters(t) != [] ==>
              |DependencyChapters(t)[0].body[0].table.rows|
                == |t.dependsOnTargets| + |t.afterTargets| + |t.beforeTargets|
  {
  }

  /* ---------------------------------------------------------------------------------------
   * Error handling
   * ------------------------------------------------------------------------------------- */

  /** The fixed text of the error handling intro, up to the target's name. */
  const ErrorHandlingPreamble: string :=
    "This chapter contains an description of the error handling of this target. "
    + "All listed targets are executed after an error occured in the target "

  /** The intro line of the Error Handling chapter, naming the target. */
  function ErrorHandlingIntro(name: string): string
  {
    ErrorHandlingPreamble + name + "."
  }

  /** One list line per on-error target. */
  function Bullet(target: string, newLine: string): string
  {
    "  - " + target + newLine
  }

  /** The list lines of all on-error targets, in order. */
  function Bullets(targets: seq<string>, newLine: string): string
    decreases |targets|
  {
    if targets == [] then ""
    else Bullets(targets[..|targets| - 1], newLine) + Bullet(targets[|targets| - 1], newLine)
  }

  /** One more target adds its line at the end of the list. */
  lemma BulletsSnoc(targets: seq<string>, target: string, newLine: string)
    ensures Bullets(targets + [target], newLine) == Bullets(targets, newLine) + Bullet(target, newLine)
  {
    assert (targets + [target])[..|targets|] == targets;
  }

  /** The list of a joined list is the list of the front, then that of the back. */
  lemma {:induction false} BulletsSplit(front: seq<string>, back: seq<string>, newLine: string)
    ensures Bullets(front + back, newLine) == Bullets(front, newLine) + Bullets(back, newLine)
    decreases |back|
  {
    if back == [] {
      assert front + back == front;
    } else {
      var n := |back| - 1;
      var rest, last := back[..n], back[n];
      assert back == rest + [last];
      assert front + back == (front + rest) + [last];
      BulletsSnoc(front + rest, last, newLine);
      BulletsSnoc(rest, last, newLine);
      BulletsSplit(front, rest, newLine);
    }
  }

  /** The text `AppendLine` builds: the intro line, an empty line, then one line per target. */
  function ErrorHandlingText(name: string, targets: seq<string>, newLine: string): string
  {
    ErrorHandlingIntro(name) + newLine + newLine + Bullets(targets, newLine)
  }

  /** What `AppendErrorHandlingSection` appends: the "Error Handling" chapter when the target
    * has on-error targets. */
  function ErrorHandlingChapters(t: Target, newLine: string): seq<Chapter>
  {
    if |t.onErrorTargets| == 0 then []
    else [Chapter(ErrorHandlingTitle, [StringContent(ErrorHandlingText(t.name, t.onErrorTargets, newLine))])]
  }

  /** Whatever precedes the list, each on-error target has its line in it. */
  lemma {:induction false} BulletOccurs(prefix: string, targets: seq<string>, k: int, newLine: string)
    requires 0 <= k < |targets|
    ensures Occurs(Bullet(targets[k], newLine), prefix + Bullets(targets, newLine))
    decreases |targets|
  {
    var n := |targets| - 1;
    var front, line := Bullets(targets[..n], newLine), Bullet(targets[n], newLine);
    assert prefix + Bullets(targets, newLine) == (prefix + front) + line;
    if k == n {
      OccursInContext(prefix + front, line, "");
      assert (prefix + front) + line + "" == (prefix + front) + line;
    } else {
      assert targets[..n][k] == targets[k];
      BulletOccurs(prefix, targets[..n], k, newLine);
      OccursBeforeSuffix(Bullet(targets[k], newLine), prefix + front, line);
    }
  }

  /** The chapter exists iff there are on-error targets; its text opens with the sentence that
    * names the target and then lists every on-error target on a line of its own. */
  lemma ErrorHandlingListsEveryOnErrorTarget(t: Target, newLine: string)
    ensures ErrorHandlingChapters(t, newLine) != [] <==> t.onErrorTargets != []
    ensures ErrorHandlingChapters(t, newLine) != [] ==>
              var text := ErrorHandlingChapters(t, newLine)[0].body[0].content;
              && text[..|ErrorHandlingIntro(t.name)|] == ErrorHandlingIntro(t.name)
              && forall k :: 0 <= k < |t.onErrorTargets| ==> Occurs("  - " + t.onErrorTargets[k] + newLine, text)
  {
    if t.onErrorTargets != [] {
      var ts := t.onErrorTargets;
      var intro := ErrorHandlingIntro(t.name) + newLine + newLine;
      var text := ErrorHandlingText(t.name, ts, newLine);
      assert text == intro + Bullets(ts, newLine);
      forall k | 0 <= k < |ts| ensures Occurs("  - " + ts[k] + newLine, text) {
        BulletOccurs(intro, ts, k, newLine);
      }
    }
  }

  /* ---------------------------------------------------------------------------------------
   * Examples
   * ------------------------------------------------------------------------------------- */

  /** An "Example" chapter holding the parsed code as a one-line code block in its language. */
  function ExampleChapter(sample: CodeSample): Chapter
  {
    Chapter(ExampleSection, [CodeBlock(sample.language, [sample.content])])
  }

  function ExampleChaptersOf(ps: seq<HelpParagraph>, parse: string -> CodeSample): (r: seq<Chapter>)
    ensures |r| == |ps|
    ensures forall k :: 0 <= k < |ps| ==> r[k] == ExampleChapter(parse(ps[k].content))
    decreases |ps|
  {
    if ps == [] then [] else ExampleChaptersOf(ps[..|ps| - 1], parse) + [ExampleChapter(parse(ps[|ps| - 1].content))]
  }

  /** What `AppendExampleSection` appends: a chapter per EXAMPLE paragraph, its body parsed by
    * the help's code block parser. */
  function ExampleChapters(help: Help, parse: string -> CodeSample): seq<Chapter>
  {
    if !ContainsSection(help, ExampleSection, OrdinalIgnoreCase) then []
    else ExampleChaptersOf(LookUp(help, ExampleSection, OrdinalIgnoreCase), parse)
  }

  /** Every EXAMPLE paragraph gets an "Example" chapter of its own, in the order of the help. */
  lemma ExamplesOneChapterPerParagraph(help: Help, parse: string -> CodeSample)
    ensures var pos := MatchingPositions(help, ExampleSection, OrdinalIgnoreCase);
            && |ExampleChapters(help, parse)| == |pos|
            && forall k :: 0 <= k < |pos| ==>
                 var sample := parse(help[pos[k]].content);
                 ExampleChapters(help, parse)[k] == Chapter("Example", [CodeBlock(sample.language, [sample.content])])
  {
    LookUpSelectsMatchesInOrder(help, ExampleSection, OrdinalIgnoreCase);
    QueriesAgree(help, ExampleSection, OrdinalIgnoreCase);
  }

  /* ---------------------------------------------------------------------------------------
   * The whole overview
   * ------------------------------------------------------------------------------------- */

  /** The chapters of a target's overview, section by section. */
  function OverviewChapters(t: Target, parse: string -> CodeSample, newLine: string): seq<Chapter>
  {
    DescriptionChapters(t.help)
    + ParameterChapters(t.help)
    + OutputChapters(t.help)
    + DependencyChapters(t)
    + ErrorHandlingChapters(t, newLine)
    + ExampleChapters(t.help, parse)
  }

  /** `CreateOverview`: a new document titled with the target's name, holding its chapters. */
  function TargetOverviewDocument(factory: DocumentFactory, t: Target, parse: string -> CodeSample,
                                  platform: Platform): Document
  {
    factory.Create(t.name).(chapters := OverviewChapters(t, parse, platform.newLine))
  }

  /** `n` copies of `title`. */
  function Repeat(title: string, n: nat): (r: seq<string>)
    ensures |r| == n && forall k :: 0 <= k < n ==> r[k] == title
  {
    seq(n, _ => title)
  }

  /** One chapter per OUTPUTS paragraph, each titled "Outputs " and its qualifier. */
  lemma OutputTitles(help: Help)
    ensures forall k :: 0 <= k < |OutputChapters(help)| ==>
              OccursAt("Outputs ", OutputChapters(help)[k].title, 0)
  {
    var c := OutputChapters(help);
    forall k | 0 <= k < |c| ensures OccursAt("Outputs ", c[k].title, 0) {
      assert c[k].title[..8] == "Outputs ";
    }
  }

  lemma ExampleTitles(help: Help, parse: string -> CodeSample)
    ensures Titles(ExampleChapters(help, parse)) == Repeat("Example", |LookUp(help, ExampleSection, OrdinalIgnoreCase)|)
  {
    QueriesAgree(help, ExampleSection, OrdinalIgnoreCase);
  }

  /** The titles of a section that appends at most one chapter. */
  lemma OptionalTitle(c: seq<Chapter>, present: bool, title: string)
    requires c == [] || (|c| == 1 && c[0].title == title)
    requires present <==> c != []
    ensures Titles(c) == if present then [title] else []
  {
  }

  /** The titles of the sections that append at most one chapter. */
  lemma SingleSectionTitles(t: Target, newLine: string)
    ensures Titles(DescriptionChapters(t.help))
            == if ContainsSection(t.help, DescriptionSection, OrdinalIgnoreCase) then ["Description"] else []
    ensures Titles(ParameterChapters(t.help))
            == if ContainsSection(t.help, ParameterSection, OrdinalIgnoreCase) then ["Parameters"] else []
    ensures Titles(DependencyChapters(t)) == if t.hasTargetDependencies then ["Target Dependencies"] else []
    ensures Titles(ErrorHandlingChapters(t, newLine)) == if t.onErrorTargets != [] then ["Error Handling"] else []
  {
    OptionalTitle(DescriptionChapters(t.help), ContainsSection(t.help, DescriptionSection, OrdinalIgnoreCase), "Description");
    OptionalTitle(ParameterChapters(t.help), ContainsSection(t.help, ParameterSection, OrdinalIgnoreCase), "Parameters");
    OptionalTitle(DependencyChapters(t), t.hasTargetDependencies, "Target Dependencies");
    OptionalTitle(ErrorHandlingChapters(t, newLine), t.onErrorTargets != [], "Error Handling");
  }

  /** Titles of the six sections, joined. */
  lemma TitlesOfSections(c1: seq<Chapter>, c2: seq<Chapter>, c3: seq<Chapter>,
                         c4: seq<Chapter>, c5: seq<Chapter>, c6: seq<Chapter>)
    ensures Titles(c1 + c2 + c3 + c4 + c5 + c6)
            == Titles(c1) + Titles(c2) + Titles(c3) + Titles(c4) + Titles(c5) + Titles(c6)
  {
    TitlesAppend(c1, c2);
    TitlesAppend(c1 + c2, c3);
    TitlesAppend(c1 + c2 + c3, c4);
    TitlesAppend(c1 + c2 + c3 + c4, c5);
    TitlesAppend(c1 + c2 + c3 + c4 + c5, c6);
  }

  /** The sections come in a fixed order: Description, Parameters, the Outputs chapters,
    * Target Dependencies, Error Handling, the Example chapters; each as often as the help
    * or the target calls for. */
  lemma OverviewSectionOrder(t: Target, parse: string -> CodeSample, newLine: string)
    ensures Titles(OverviewChapters(t, parse, newLine)) ==
              (if ContainsSection(t.help, DescriptionSection, OrdinalIgnoreCase) then ["Description"] else [])
              + (if ContainsSection(t.help, ParameterSection, OrdinalIgnoreCase) then ["Parameters"] else [])
              + Titles(OutputChapters(t.help))
              + (if t.hasTargetDependencies then ["Target Dependencies"] else [])
              + (if t.onErrorTargets != [] then ["Error Handling"] else [])
              + Repeat("Example", |LookUp(t.help, ExampleSection, OrdinalIgnoreCase)|)
  {
    SingleSectionTitles(t, newLine);
    ExampleTitles(t.help, parse);
    TitlesOfSections(DescriptionChapters(t.help), ParameterChapters(t.help), OutputChapters(t.help),
                     DependencyChapters(t), ErrorHandlingChapters(t, newLine), ExampleChapters(t.help, parse));
  }

  /** How many chapters an overview has: one each for a description, parameters, dependencies
    * and error handling when present, plus one per OUTPUTS and one per EXAMPLE paragraph. */
  lemma OverviewChapterCount(t: Target, parse: string -> CodeSample, newLine: string)
    ensures |OverviewChapters(t, parse, newLine)| ==
              (if ContainsSection(t.help, DescriptionSection, OrdinalIgnoreCase) then 1 else 0)
              + (if ContainsSection(t.help, ParameterSection, OrdinalIgnoreCase) then 1 else 0)
              + |MatchingPositions(t.help, OutputsSection, OrdinalIgnoreCase)|
              + (if t.hasTargetDependencies then 1 else 0)
              + (if t.onErrorTargets != [] then 1 else 0)
              + |MatchingPositions(t.help, ExampleSection, OrdinalIgnoreCase)|
  {
    OverviewSectionOrder(t, parse, newLine);
    OutputsOneChapterPerParagraph(t.help);
    LookUpSelectsMatchesInOrder(t.help, ExampleSection, OrdinalIgnoreCase);
  }

  /** The composer; it holds the document builder of the output kind. */
  class TargetOverviewSiteGenerator {
    const printableDocument: DocumentFactory

    constructor (printableDocument: DocumentFactory)
      ensures this.printableDocument == printableDocument
    {
      this.printableDocument := printableDocument;
    }

    /** `CreateOverview`: creates the document, titled with the target's name, and appends the
      * six sections in order. */
    method CreateOverview(target: Target, parse: string -> CodeSample, platform: Platform) returns (doc: Document)
      ensures doc == TargetOverviewDocument(printableDocument, target, parse, platform)
      ensures doc.title == target.name && doc.defaultFileExtension == printableDocument.defaultFileExtension
    {
      var created := printableDocument.Create(target.name);
      var d1 := AppendDescriptionSection(created, target);
      var d2 := AppendParameterSection(d1, target);
      var d3 := AppendOutputSection(d2, target);
      var d4 := AppendDependencySection(d3, target);
      var d5 := AppendErrorHandlingSection(d4, target, platform);
      doc := AppendExampleSection(d5, target, parse);
      ghost var c1, c2, c3 := DescriptionChapters(target.help), ParameterChapters(target.help), OutputChapters(target.help);
      ghost var c4, c5, c6 := DependencyChapters(target), ErrorHandlingChapters(target, platform.newLine), ExampleChapters(target.help, parse);
      assert d1.chapters == c1;
      assert d2.chapters == c1 + c2;
      assert d3.chapters == c1 + c2 + c3;
      assert d4.chapters == c1 + c2 + c3 + c4;
      assert d5.chapters == c1 + c2 + c3 + c4 + c5;
      assert doc.chapters == c1 + c2 + c3 + c4 + c5 + c6;
      assert doc.title == target.name;
    }

    method AppendDescriptionSection(doc: Document, target: Target) returns (r: Document)
      ensures r == doc.(chapters := doc.chapters + DescriptionChapters(target.help))
    {
      if !ContainsSection(target.help, DescriptionSection, OrdinalIgnoreCase) {
        return doc;
      }
      var descriptionContent := GetSectionContent(target.help, DescriptionSection, OrdinalIgnoreCase);
      var chapter := Chapter(DescriptionTitle, [StringContent(descriptionContent.value)]);
      r := doc.(chapters := doc.chapters + [chapter]);
    }

    method AppendParameterSection(doc: Document, target: Target) returns (r: Document)
      ensures r == doc.(chapters := doc.chapters + ParameterChapters(target.help))
    {
      if !ContainsSection(target.help, ParameterSection, OrdinalIgnoreCase) {
        return doc;
      }
      var parameters := LookUp(target.help, ParameterSection, OrdinalIgnoreCase);
      var body: seq<Element> := [];
      var i := 0;
      while i < |parameters|
        invariant 0 <= i <= |parameters|
        invariant body == ParameterParagraphs(parameters[..i])
      {
        assert parameters[..i + 1][..i] == parameters[..i];
        var p := parameters[i];
        body := body + [Paragraph("Parameter " + FormatArgument(p.additional), [StringContent(p.content)])];
        i := i + 1;
      }
      assert parameters[..i] == parameters;
      r := doc.(chapters := doc.chapters + [Chapter(ParametersTitle, body)]);
    }

    method AppendOutputSection(doc: Document, target: Target) returns (r: Document)
      ensures r == doc.(chapters := doc.chapters + OutputChapters(target.help))
    {
      if !ContainsSection(target.help, OutputsSection, OrdinalIgnoreCase) {
        return doc;
      }
      var outputs := LookUp(target.help, OutputsSection, OrdinalIgnoreCase);
      r := doc;
      var i := 0;
      while i < |outputs|
        invariant 0 <= i <= |outputs|
        invariant r == doc.(chapters := doc.chapters + OutputChaptersOf(outputs[..i]))
      {
        assert outputs[..i + 1][..i] == outputs[..i];
        var p := outputs[i];
        var chapter := Chapter("Outputs " + FormatArgument(p.additional), [StringContent(p.content)]);
        r := r.(chapters := r.chapters + [chapter]);
        i := i + 1;
      }
      assert outputs[..i] == outputs;
    }

    method AppendDependencySection(doc: Document, target: Target) returns (r: Document)
      ensures r == doc.(chapters := doc.chapters + DependencyChapters(target))
    {
      if !target.hasTargetDependencies {
        return doc;
      }
      var rows: seq<seq<Cell>> := [];
      var i := 0;
      while i < |target.dependsOnTargets|
        invariant 0 <= i <= |target.dependsOnTargets|
        invariant rows == DependencyRowsOf(DependsOnTargets, target.name, target.dependsOnTargets[..i])
      {
        var other := target.dependsOnTargets[i];
        DependencyRowsStep([], DependsOnTargets, target.name, target.dependsOnTargets, i);
        rows := rows + [[TextCell(other), TextCell("DependsOnTargets"),
                         TextCell("Calls the target " + other + " before execution of " + target.name + ".")]];
        i := i + 1;
      }
      TakeAll(target.dependsOnTargets);
      ghost var dependsOnRows := rows;
      i := 0;
      while i < |target.afterTargets|
        invariant 0 <= i <= |target.afterTargets|
        invariant rows == dependsOnRows + DependencyRowsOf(AfterTargets, target.name, target.afterTargets[..i])
      {
        var other := target.afterTargets[i];
        DependencyRowsStep(dependsOnRows, AfterTargets, target.name, target.afterTargets, i);
        rows := rows + [[TextCell(other), TextCell("AfterTargets"),
                         TextCell("Runs the target " + target.name + " after the execution of " + other + " has finished.")]];
        i := i + 1;
      }
      TakeAll(target.afterTargets);
      ghost var afterRows := rows;
      i := 0;
      while i < |target.beforeTargets|
        invariant 0 <= i <= |target.beforeTargets|
        invariant rows == afterRows + DependencyRowsOf(BeforeTargets, target.name, target.beforeTargets[..i])
      {
        var other := target.beforeTargets[i];
        DependencyRowsStep(afterRows, BeforeTargets, target.name, target.beforeTargets, i);
        rows := rows + [[TextCell(other), TextCell("BeforeTargets"),
                         TextCell("Runs the target " + target.name + " before the execution of " + other + " starts.")]];
        i := i + 1;
      }
      TakeAll(target.beforeTargets);
      var chapter := Chapter(DependenciesTitle, [TableContent(Table(DependencyHeaders, rows))]);
      r := doc.(chapters := doc.chapters + [chapter]);
    }

    method AppendErrorHandlingSection(doc: Document, target: Target, platform: Platform) returns (r: Document)
      ensures r == doc.(chapters := doc.chapters + ErrorHandlingChapters(target, platform.newLine))
    {
      if |target.onErrorTargets| == 0 {
        return doc;
      }
      var newLine := platform.newLine;
      var builder := ErrorHandlingIntro(target.name) + newLine;
      builder := builder + newLine;
      var i := 0;
      while i < |target.onErrorTargets|
        invariant 0 <= i <= |target.onErrorTargets|
        invariant builder == ErrorHandlingIntro(target.name) + newLine + newLine
                             + Bullets(target.onErrorTargets[..i], newLine)
      {
        assert target.onErrorTargets[..i + 1][..i] == target.onErrorTargets[..i];
        builder := builder + ("  - " + target.onErrorTargets[i] + newLine);
        i := i + 1;
      }
      assert target.onErrorTargets[..i] == target.onErrorTargets;
      var chapter := Chapter(ErrorHandlingTitle, [StringContent(builder)]);
      r := doc.(chapters := doc.chapters + [chapter]);
    }

    method AppendExampleSection(doc: Document, target: Target, parse: string -> CodeSample) returns (r: Document)
      ensures r == doc.(chapters := doc.chapters + ExampleChapters(target.help, parse))
    {
      if !ContainsSection(target.help, ExampleSection, OrdinalIgnoreCase) {
        return doc;
      }
      var examples := LookUp(target.help, ExampleSection, OrdinalIgnoreCase);
      r := doc;
      var i := 0;
      while i < |examples|
        invariant 0 <= i <= |examples|
        invariant r == doc.(chapters := doc.chapters + ExampleChaptersOf(examples[..i], parse))
      {
        assert examples[..i + 1][..i] == examples[..i];
        var codeBlock := parse(examples[i].content);
        var chapter := Chapter(ExampleSection, [CodeBlock(codeBlock.language, [codeBlock.content])]);
        r := r.(chapters := r.chapters + [chapter]);
        i := i + 1;
      }
      assert examples[..i] == examples;
    }
  }
}
