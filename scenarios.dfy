/**
  * The behaviour the repository's unit tests expect, replayed on the model: each member
  * builds the inputs a test builds (help stores through HelpBuilder, as the tests do) and
  * states what the test checks of the composed document.
  */
module Scenarios {
  import opened Common
  import opened Strings
  import opened HelpStore
  import opened Documents
  import opened MsBuild
  import opened ProjectOverview
  import opened TargetOverview

  /** A target called TargetA with the given help and dependency lists. */
  function TargetA(help: Help, dependsOn: seq<string>, after: seq<string>, before: seq<string>,
                   onError: seq<string>, hasDependencies: bool): Target
  {
    Target("TargetA", help, dependsOn, after, before, onError, hasDependencies)
  }

  /** A help store whose paragraphs all carry one section name: LookUp of that name returns it
    * whole, and no other section name (up to case) is found in it. */
  lemma OnlySection(help: Help, section: string)
    requires forall i :: 0 <= i < |help| ==> IsMatch(help[i], section, OrdinalIgnoreCase)
    ensures LookUp(help, section, OrdinalIgnoreCase) == help
    ensures forall other :: FoldCase(other) != FoldCase(section) ==> !ContainsSection(help, other, OrdinalIgnoreCase)
  {
    LookUpAllMatch(help, section, OrdinalIgnoreCase);
  }

  /** A target without help paragraphs gets only its dependency and error handling chapters. */
  lemma OverviewWithoutHelp(t: Target, parse: string -> CodeSample, newLine: string)
    requires t.help == []
    ensures TargetOverview.OverviewChapters(t, parse, newLine) == DependencyChapters(t) + ErrorHandlingChapters(t, newLine)
  {
    var dep, err := DependencyChapters(t), ErrorHandlingChapters(t, newLine);
    assert DescriptionChapters(t.help) == [] && ParameterChapters(t.help) == [];
    assert OutputChapters(t.help) == [] && ExampleChapters(t.help, parse) == [];
    calc {
      TargetOverview.OverviewChapters(t, parse, newLine);
      [] + [] + [] + dep + err + [];
      { assert [] + [] + [] + dep == dep; }
      dep + err + [];
      { assert dep + err + [] == dep + err; }
      dep + err;
    }
  }

  /** A target without dependencies or on-error targets gets only the chapters its help yields. */
  lemma OverviewOfHelpOnly(t: Target, parse: string -> CodeSample, newLine: string)
    requires !t.hasTargetDependencies && t.onErrorTargets == []
    ensures TargetOverview.OverviewChapters(t, parse, newLine)
            == DescriptionChapters(t.help) + ParameterChapters(t.help) + OutputChapters(t.help)
               + ExampleChapters(t.help, parse)
  {
    var d, p, o, e := DescriptionChapters(t.help), ParameterChapters(t.help), OutputChapters(t.help),
                      ExampleChapters(t.help, parse);
    assert DependencyChapters(t) == [] && ErrorHandlingChapters(t, newLine) == [];
    assert d + p + o + [] + [] + e == d + p + o + e;
  }

  /** The two PARAMETER paragraphs yield no description, output or example chapters. */
  lemma ParametersOnly(one: string, two: string, parse: string -> CodeSample)
    ensures var help := TwoParameters(one, two);
            DescriptionChapters(help) == [] && OutputChapters(help) == [] && ExampleChapters(help, parse) == []
  {
    OnlySection(TwoParameters(one, two), ParameterSection);
    SectionNamesDiffer();
  }

  /** The XML texts of the two EXAMPLE paragraphs. */
  const FirstExampleXml: string := "<TestXml>Content</TestXml>"
  const SecondExampleXml: string := "<TestXml>AnotherContent</TestXml>"

  /** Two EXAMPLE paragraphs yield one chapter each and no description, parameter or output
    * chapters. */
  lemma ExamplesOnly(first: string, second: string, parse: string -> CodeSample)
    ensures var help := [HelpParagraph("EXAMPLE", first, None), HelpParagraph("EXAMPLE", second, None)];
            && DescriptionChapters(help) == [] && ParameterChapters(help) == [] && OutputChapters(help) == []
            && ExampleChapters(help, parse) == ExampleChaptersOf(help, parse)
  {
    var help := [HelpParagraph("EXAMPLE", first, None), HelpParagraph("EXAMPLE", second, None)];
    OnlySection(help, ExampleSection);
    SectionNamesDiffer();
    assert IsMatch(help[0], ExampleSection, OrdinalIgnoreCase);
  }

  /** A help store of one DESCRIPTION paragraph yields a single "Description" chapter holding its
    * text, and no parameter, output or example chapters. */
  lemma DescriptionOnly(text: string, qualifier: Option<string>, parse: string -> CodeSample)
    ensures var help := [HelpParagraph("DESCRIPTION", text, qualifier)];
            && DescriptionChapters(help) == [Chapter("Description", [StringContent(text)])]
            && ParameterChapters(help) == [] && OutputChapters(help) == [] && ExampleChapters(help, parse) == []
  {
    var help := [HelpParagraph("DESCRIPTION", text, qualifier)];
    OnlySection(help, DescriptionSection);
    SectionNamesDiffer();
  }

  /** A target with one on-error target gets an "Error Handling" chapter naming it, and nothing else. */
  method ErrorHandlingNamesTheOnErrorTarget(factory: DocumentFactory, parse: string -> CodeSample, platform: Platform)
    returns (doc: Document)
    ensures |doc.chapters| == 1 && doc.chapters[0].title == "Error Handling"
            && |doc.chapters[0].body| == 1 && doc.chapters[0].body[0].StringContent?
            && Occurs("OnErrorTarget", doc.chapters[0].body[0].content)
  {
    var generator := new TargetOverviewSiteGenerator(factory);
    var target := TargetA([], [], [], [], ["OnErrorTarget"], false);
    var newLine := platform.newLine;
    OverviewWithoutHelp(target, parse, newLine);
    doc := generator.CreateOverview(target, parse, platform);
    ErrorHandlingListsEveryOnErrorTarget(target, newLine);
    var onError := target.onErrorTargets[0];
    OccursWithin("  - ", onError, newLine, doc.chapters[0].body[0].content);
  }

  /** The dependency table of a target with two dependency edges of one kind: one row per edge,
    * in order, each typed with its kind. */
  method DependencyRowsOfOneKind(factory: DocumentFactory, parse: string -> CodeSample, platform: Platform,
                                 kind: DependencyKind)
    returns (doc: Document)
    ensures |doc.chapters| == 1 && doc.chapters[0].title == "Target Dependencies"
            && |doc.chapters[0].body| == 1 && doc.chapters[0].body[0].TableContent?
            && doc.chapters[0].body[0].table.headers == ["Target", "Dependency Type", "Dependency Description"]
            && var rows := doc.chapters[0].body[0].table.rows;
            && |rows| == 2 && |rows[0]| == 3 && |rows[1]| == 3
            && rows[0][..2] == [TextCell("TargetB"), TextCell(KindName(kind))]
            && rows[1][..2] == [TextCell("TargetC"), TextCell(KindName(kind))]
  {
    var generator := new TargetOverviewSiteGenerator(factory);
    var edges := ["TargetB", "TargetC"];
    var target := match kind
      case DependsOnTargets => TargetA([], edges, [], [], [], true)
      case AfterTargets => TargetA([], [], edges, [], [], true)
      case BeforeTargets => TargetA([], [], [], edges, [], true);
    doc := generator.CreateOverview(target, parse, platform);
    DependencyTableListsEveryEdge(target);
  }

  /** A DESCRIPTION paragraph, named in upper case and with a qualifier, yields one "Description"
    * chapter holding exactly its text. */
  method DescriptionChapterHoldsTheDescription(factory: DocumentFactory, parse: string -> CodeSample,
                                               platform: Platform, text: string)
    returns (doc: Document)
    ensures doc.title == "TargetA"
    ensures doc.chapters == [Chapter("Description", [StringContent(text)])]
  {
    var help := new HelpBuilder();
    help.AddHelpParagraph("DESCRIPTION", text, Some("$(ParamPropertyOne)"));
    var generator := new TargetOverviewSiteGenerator(factory);
    var target := TargetA(help.paragraphs, [], [], [], [], false);
    OverviewOfHelpOnly(target, parse, platform.newLine);
    DescriptionOnly(text, Some("$(ParamPropertyOne)"), parse);
    doc := generator.CreateOverview(target, parse, platform);
  }

  function TwoParameters(one: string, two: string): Help
  {
    [HelpParagraph("PARAMETER", one, Some("$(ParamPropertyOne)")),
     HelpParagraph("PARAMETER", two, Some("$(ParamPropertyTwo)"))]
  }

  lemma TwoParameterParagraphs(one: string, two: string)
    ensures ParameterChapters(TwoParameters(one, two))
            == [Chapter("Parameters", [Paragraph("Parameter " + "$(ParamPropertyOne)", [StringContent(one)]),
                                       Paragraph("Parameter " + "$(ParamPropertyTwo)", [StringContent(two)])])]
  {
    var help := TwoParameters(one, two);
    var first := Paragraph("Parameter " + "$(ParamPropertyOne)", [StringContent(one)]);
    var second := Paragraph("Parameter " + "$(ParamPropertyTwo)", [StringContent(two)]);
    assert ContainsSection(help, ParameterSection, OrdinalIgnoreCase) by {
      assert IsMatch(help[0], ParameterSection, OrdinalIgnoreCase);
    }
    assert LookUp(help, ParameterSection, OrdinalIgnoreCase) == help by {
      OnlySection(help, ParameterSection);
    }
    assert ParameterParagraph(help[0]) == first;
    assert ParameterParagraph(help[1]) == second;
    assert ParameterParagraphs(help) == [first, second];
  }

  /** Two PARAMETER paragraphs yield one "Parameters" chapter with a sub-paragraph for each,
    * titled with its qualifier and holding its own text. */
  method ParameterParagraphsCarryTheirNames(factory: DocumentFactory, parse: string -> CodeSample,
                                            platform: Platform, one: string, two: string)
    returns (doc: Document)
    ensures doc.chapters == [Chapter("Parameters",
                                     [Paragraph("Parameter " + "$(ParamPropertyOne)", [StringContent(one)]),
                                      Paragraph("Parameter " + "$(ParamPropertyTwo)", [StringContent(two)])])]
  {
    var help := new HelpBuilder();
    help.AddHelpParagraph("PARAMETER", one, Some("$(ParamPropertyOne)"));
    help.AddHelpParagraph("PARAMETER", two, Some("$(ParamPropertyTwo)"));
    var generator := new TargetOverviewSiteGenerator(factory);
    var target := TargetA(help.paragraphs, [], [], [], [], false);
    assert target.help == TwoParameters(one, two);
    OverviewOfHelpOnly(target, parse, platform.newLine);
    ParametersOnly(one, two, parse);
    TwoParameterParagraphs(one, two);
    doc := generator.CreateOverview(target, parse, platform);
  }

  /** Two EXAMPLE paragraphs yield two "Example" chapters whose code blocks hold the code,
    * whenever the parser keeps the XML text as it is. */
  method ExampleChaptersHoldTheCode(factory: DocumentFactory, parse: string -> CodeSample, platform: Platform)
    returns (doc: Document)
    requires parse(FirstExampleXml).content == FirstExampleXml
    requires parse(SecondExampleXml).content == SecondExampleXml
    ensures |doc.chapters| == 2
    ensures forall k :: 0 <= k < 2 ==>
              doc.chapters[k].title == "Example" && |doc.chapters[k].body| == 1 && doc.chapters[k].body[0].CodeBlock?
    ensures doc.chapters[0].body[0].lines == [FirstExampleXml]
    ensures doc.chapters[1].body[0].lines == [SecondExampleXml]
  {
    var help := new HelpBuilder();
    help.AddHelpParagraph("EXAMPLE", FirstExampleXml, None);
    help.AddHelpParagraph("EXAMPLE", SecondExampleXml, None);
    var generator := new TargetOverviewSiteGenerator(factory);
    var target := TargetA(help.paragraphs, [], [], [], [], false);
    assert target.help == [HelpParagraph("EXAMPLE", FirstExampleXml, None), HelpParagraph("EXAMPLE", SecondExampleXml, None)];
    OverviewOfHelpOnly(target, parse, platform.newLine);
    ExamplesOnly(FirstExampleXml, SecondExampleXml, parse);
    doc := generator.CreateOverview(target, parse, platform);
  }

  /** A project with one property that cannot be set from outside and no targets gets a single
    * "Properties" chapter whose one row starts with the property's name, and no Targets chapter. */
  method OnePropertyWithoutTargets(file: ProjectFile, factory: DocumentFactory, platform: Platform,
                                   condition: string, help: Help)
    returns (ok: bool, doc: Document)
    ensures ok
    ensures Titles(doc.chapters) == ["Properties"]
    ensures |doc.chapters[0].body| == 2 && doc.chapters[0].body[1].TableContent?
            && |doc.chapters[0].body[1].table.rows| == 1 && |doc.chapters[0].body[1].table.rows[0]| == 3
            && doc.chapters[0].body[1].table.rows[0][0] == TextCell("Property1")
  {
    var property := Property("Property1", condition, false, help);
    var project := Project(Some([property]), Some([]));
    ghost var created := CreateOutputDocument(file, factory);
    ghost var expected := [Chapter("Properties",
                                   [StringContent(NotSettablePropertiesIntro(created.title)),
                                    TableContent(Table(PropertyHeaders, [PropertyRow(property)]))])];
    assert ProjectOverview.OverviewChapters(created, project, platform) == expected by {
      assert [property][..0] == [];
      assert WithSetter([property], true) == [];
      assert WithSetter([property], false) == [property];
      assert !AnySettable([property]) && !AllSettable([property]);
      assert PropertyRows([property]) == [PropertyRow(property)];
    }
    var generator := new ProjectOverviewGenerator(project, file, factory, platform);
    ok := generator.CreateBody();
    doc := generator.outputDocument;
    assert doc.chapters == expected;
  }
}
