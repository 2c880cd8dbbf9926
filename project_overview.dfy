/**
  * The project overview composer: the root document of a project, holding up to three
  * chapters in the fixed order "Overwriteable Properties", "Properties", "Targets".
  * The specification functions say which chapters the composer appends and what they hold;
  * ProjectOverviewGenerator appends them to its output document the way the source does.
  */
module ProjectOverview {
  import opened Common
  import opened Strings
  import opened HelpStore
  import opened Documents
  import opened MsBuild

  const OverwriteablePropertiesTitle := "Overwriteable Properties"
  const PropertiesTitle := "Properties"
  const TargetsTitle := "Targets"
  const PropertyHeaders: seq<string> := ["Property", "Description", "Condition"]
  const TargetHeaders: seq<string> := ["Target", "Description"]

  /* ---------------------------------------------------------------------------------------
   * Short descriptions
   * ------------------------------------------------------------------------------------- */

  function FirstOrDefault(ps: seq<HelpParagraph>): Option<HelpParagraph>
  {
    if ps == [] then None else Some(ps[0])
  }

  /** `GetPropertySynopsisOrDescription`: the first SYNOPSIS paragraph, else the first
    * DESCRIPTION paragraph, else null; section names compared ignoring case. */
  function SynopsisOrDescription(help: Help): (r: Option<HelpParagraph>)
    ensures r.Some? <==> ContainsSection(help, SynopsisSection, OrdinalIgnoreCase)
                         || ContainsSection(help, DescriptionSection, OrdinalIgnoreCase)
    ensures r.Some? ==> r.value in help
    ensures ContainsSection(help, SynopsisSection, OrdinalIgnoreCase) ==>
              r.Some? && IsMatch(r.value, SynopsisSection, OrdinalIgnoreCase)
    ensures !ContainsSection(help, SynopsisSection, OrdinalIgnoreCase) && r.Some? ==>
              IsMatch(r.value, DescriptionSection, OrdinalIgnoreCase)
  {
    QueriesAgree(help, SynopsisSection, OrdinalIgnoreCase);
    QueriesAgree(help, DescriptionSection, OrdinalIgnoreCase);
    LookUpFromHelp(help, SynopsisSection, OrdinalIgnoreCase);
    LookUpFromHelp(help, DescriptionSection, OrdinalIgnoreCase);
    if |help| == 0 then None
    else if ContainsSection(help, SynopsisSection, OrdinalIgnoreCase) then
      FirstOrDefault(LookUp(help, SynopsisSection, OrdinalIgnoreCase))
    else if ContainsSection(help, DescriptionSection, OrdinalIgnoreCase) then
      FirstOrDefault(LookUp(help, DescriptionSection, OrdinalIgnoreCase))
    else None
  }

  /** The text of a description cell: the chosen paragraph's body, or "" when there is none
    * (joining a single null string gives the empty string). */
  function DescriptionCell(help: Help): string
  {
    match SynopsisOrDescription(help)
    case None => ""
    case Some(p) => p.content
  }

  /** The fallback read through GetSectionContent: the synopsis if there is one, else the
    * description, else the empty string. */
  lemma DescriptionCellFallback(help: Help)
    ensures ContainsSection(help, SynopsisSection, OrdinalIgnoreCase) ==>
              DescriptionCell(help) == GetSectionContent(help, SynopsisSection, OrdinalIgnoreCase).value
    ensures !ContainsSection(help, SynopsisSection, OrdinalIgnoreCase)
            && ContainsSection(help, DescriptionSection, OrdinalIgnoreCase) ==>
              DescriptionCell(help) == GetSectionContent(help, DescriptionSection, OrdinalIgnoreCase).value
    ensures !ContainsSection(help, SynopsisSection, OrdinalIgnoreCase)
            && !ContainsSection(help, DescriptionSection, OrdinalIgnoreCase) ==>
              DescriptionCell(help) == ""
  {
    QueriesAgree(help, SynopsisSection, OrdinalIgnoreCase);
    QueriesAgree(help, DescriptionSection, OrdinalIgnoreCase);
  }

  /* ---------------------------------------------------------------------------------------
   * Property chapters
   * ------------------------------------------------------------------------------------- */

  predicate AnySettable(ps: seq<Property>)
  {
    exists i :: 0 <= i < |ps| && ps[i].hasPublicSetter
  }

  predicate AllSettable(ps: seq<Property>)
  {
    forall i :: 0 <= i < |ps| ==> ps[i].hasPublicSetter
  }

  /** `properties.Where(p => p.HasPublicSetter == settable)` */
  function WithSetter(ps: seq<Property>, settable: bool): (r: seq<Property>)
    ensures forall k :: 0 <= k < |r| ==> r[k].hasPublicSetter == settable
    decreases |ps|
  {
    if ps == [] then []
    else
      var last := ps[|ps| - 1];
      WithSetter(ps[..|ps| - 1], settable) + (if last.hasPublicSetter == settable then [last] else [])
  }

  /** Selection keeps declaration order: it distributes over concatenation. */
  lemma {:induction false} WithSetterSplit(front: seq<Property>, back: seq<Property>, settable: bool)
    ensures WithSetter(front + back, settable) == WithSetter(front, settable) + WithSetter(back, settable)
    decreases |back|
  {
    if back == [] {
      assert front + back == front;
    } else {
      var n := |back| - 1;
      WithSetterSplit(front, back[..n], settable);
      assert (front + back)[..|front + back| - 1] == front + back[..n];
    }
  }

  /** Some property has the flag iff the selection for it is non-empty. */
  lemma {:induction false} WithSetterNonEmpty(ps: seq<Property>, settable: bool)
    ensures WithSetter(ps, settable) != [] <==> exists i :: 0 <= i < |ps| && ps[i].hasPublicSetter == settable
    decreases |ps|
  {
    if ps != [] {
      var n := |ps| - 1;
      WithSetterNonEmpty(ps[..n], settable);
      if ps[n].hasPublicSetter != settable {
        forall i | 0 <= i < n ensures ps[..n][i] == ps[i] { }
      } else {
        assert WithSetter(ps, settable) != [];
      }
    }
  }

  /** Appending one property adds it to the multiset. */
  lemma MultisetSnoc(s: seq<Property>, x: Property)
    ensures multiset(s + [x]) == multiset(s) + multiset{x}
  {
  }

  /** Selection of a list extended by one property. */
  lemma WithSetterSnoc(front: seq<Property>, last: Property, settable: bool)
    ensures WithSetter(front + [last], settable)
            == WithSetter(front, settable) + (if last.hasPublicSetter == settable then [last] else [])
  {
    assert (front + [last])[..|front|] == front;
  }

  /** Every property lands in exactly one of the two property tables. */
  lemma {:induction false} SettablePartition(ps: seq<Property>)
    ensures multiset(WithSetter(ps, true)) + multiset(WithSetter(ps, false)) == multiset(ps)
    ensures |WithSetter(ps, true)| + |WithSetter(ps, false)| == |ps|
    decreases |ps|
  {
    if ps != [] {
      var n := |ps| - 1;
      var front, last := ps[..n], ps[n];
      assert ps == front + [last];
      SettablePartition(front);
      WithSetterSnoc(front, last, true);
      WithSetterSnoc(front, last, false);
      MultisetSnoc(front, last);
      if last.hasPublicSetter {
        MultisetSnoc(WithSetter(front, true), last);
      } else {
        MultisetSnoc(WithSetter(front, false), last);
      }
    }
  }

  function PropertyRow(p: Property): seq<Cell>
  {
    [TextCell(p.name), TextCell(DescriptionCell(p.help)), TextCell(p.condition)]
  }

  /** One (Name, description, Condition) row per property, in order. */
  function PropertyRows(ps: seq<Property>): (r: seq<seq<Cell>>)
    ensures |r| == |ps|
    ensures forall k :: 0 <= k < |ps| ==> r[k] == PropertyRow(ps[k])
    decreases |ps|
  {
    if ps == [] then [] else PropertyRows(ps[..|ps| - 1]) + [PropertyRow(ps[|ps| - 1])]
  }

  /** The rows of a selection extended by one property gain that property's row exactly when
    * it is selected. */
  lemma SelectedRowsSnoc(front: seq<Property>, last: Property, settable: bool)
    ensures PropertyRows(WithSetter(front + [last], settable))
            == PropertyRows(WithSetter(front, settable))
               + (if last.hasPublicSetter == settable then [PropertyRow(last)] else [])
  {
    WithSetterSnoc(front, last, settable);
    var selected := WithSetter(front, settable);
    if last.hasPublicSetter == settable {
      assert (selected + [last])[..|selected|] == selected;
    }
  }

  /** The fixed texts of the chapter intros, before and after the document's title. */
  const OverwriteableIntroHead: string := "Contains all properties in "
  const OverwriteableIntroTail: string := " that could be overwritten from outside the document."
  const NotSettableIntroHead: string := "Contains all not settable properties in "
  const TargetsIntroHead: string := "Contains all msbuild targets in "
  const TargetsIntroTail: string := ", ordered by name ascending."

  function OverwriteablePropertiesIntro(title: string): string
  {
    OverwriteableIntroHead + title + OverwriteableIntroTail
  }

  function NotSettablePropertiesIntro(title: string): string
  {
    NotSettableIntroHead + title + "."
  }

  /** What `AppendGlobalPropertySection` appends: nothing when the list is null or no property
    * is settable, else the "Overwriteable Properties" chapter. */
  function GlobalPropertyChapters(title: string, properties: Option<seq<Property>>): seq<Chapter>
  {
    if properties.None? || !AnySettable(properties.value) then []
    else
      [Chapter(OverwriteablePropertiesTitle,
               [StringContent(OverwriteablePropertiesIntro(title)),
                TableContent(Table(PropertyHeaders, PropertyRows(WithSetter(properties.value, true))))])]
  }

  /** What `AppendPropertySection` appends: nothing when the list is null or every property is
    * settable (an empty list included), else the "Properties" chapter. */
  function PropertyChapters(title: string, properties: Option<seq<Property>>): seq<Chapter>
  {
    if properties.None? || AllSettable(properties.value) then []
    else
      [Chapter(PropertiesTitle,
               [StringContent(NotSettablePropertiesIntro(title)),
                TableContent(Table(PropertyHeaders, PropertyRows(WithSetter(properties.value, false))))])]
  }

  /** A property chapter exists exactly when its table would have rows: one intro string, then
    * a (Property, Description, Condition) table whose rows are the selected properties in order. */
  lemma PropertyChapterIffRows(title: string, ps: seq<Property>)
    ensures GlobalPropertyChapters(title, Some(ps)) ==
              if WithSetter(ps, true) == [] then []
              else [Chapter(OverwriteablePropertiesTitle,
                            [StringContent(OverwriteablePropertiesIntro(title)),
                             TableContent(Table(PropertyHeaders, PropertyRows(WithSetter(ps, true))))])]
    ensures PropertyChapters(title, Some(ps)) ==
              if WithSetter(ps, false) == [] then []
              else [Chapter(PropertiesTitle,
                            [StringContent(NotSettablePropertiesIntro(title)),
                             TableContent(Table(PropertyHeaders, PropertyRows(WithSetter(ps, false))))])]
  {
    WithSetterNonEmpty(ps, true);
    WithSetterNonEmpty(ps, false);
  }

  /* ---------------------------------------------------------------------------------------
   * Targets chapter
   * ------------------------------------------------------------------------------------- */

  predicate SortedByName(ts: seq<Target>)
  {
    forall i, j :: 0 <= i < j < |ts| ==> OrdinalLessOrEqual(ts[i].name, ts[j].name)
  }

  /** The targets called `name`, in order. */
  function Named(ts: seq<Target>, name: string): seq<Target>
  {
    if ts == [] then []
    else (if ts[0].name == name then [ts[0]] else []) + Named(ts[1..], name)
  }

  lemma NamedCons(t: Target, ts: seq<Target>, name: string)
    ensures Named([t] + ts, name) == (if t.name == name then [t] else []) + Named(ts, name)
  {
    assert ([t] + ts)[1..] == ts;
  }

  /** Inserts `t` before the first target whose name does not sort below it. */
  function InsertByName(t: Target, ts: seq<Target>): seq<Target>
  {
    if ts == [] || OrdinalLessOrEqual(t.name, ts[0].name) then [t] + ts
    else [ts[0]] + InsertByName(t, ts[1..])
  }

  lemma {:induction false} InsertIsPermutation(t: Target, ts: seq<Target>)
    ensures multiset(InsertByName(t, ts)) == multiset([t] + ts)
  {
    if ts != [] && !OrdinalLessOrEqual(t.name, ts[0].name) {
      InsertIsPermutation(t, ts[1..]);
      assert ts == [ts[0]] + ts[1..];
    }
  }

  /** A name that sorts at or below `t` and every target of `ts` sorts at or below every
    * target of the insertion. */
  lemma {:induction false} InsertKeepsLowerBound(low: string, t: Target, ts: seq<Target>)
    requires OrdinalLessOrEqual(low, t.name)
    requires forall i :: 0 <= i < |ts| ==> OrdinalLessOrEqual(low, ts[i].name)
    ensures forall i :: 0 <= i < |InsertByName(t, ts)| ==> OrdinalLessOrEqual(low, InsertByName(t, ts)[i].name)
    decreases |ts|
  {
    var r := InsertByName(t, ts);
    if ts == [] || OrdinalLessOrEqual(t.name, ts[0].name) {
      forall i | 0 <= i < |r| ensures OrdinalLessOrEqual(low, r[i].name) {
        if i > 0 {
          assert r[i] == ts[i - 1];
        }
      }
    } else {
      var rest := InsertByName(t, ts[1..]);
      InsertKeepsLowerBound(low, t, ts[1..]);
      forall i | 0 <= i < |r| ensures OrdinalLessOrEqual(low, r[i].name) {
        if i > 0 {
          assert r[i] == rest[i - 1];
        }
      }
    }
  }

  lemma {:induction false} InsertKeepsSorted(t: Target, ts: seq<Target>)
    requires SortedByName(ts)
    ensures SortedByName(InsertByName(t, ts))
    decreases |ts|
  {
    var r := InsertByName(t, ts);
    if ts == [] || OrdinalLessOrEqual(t.name, ts[0].name) {
      forall i, j | 0 <= i < j < |r| ensures OrdinalLessOrEqual(r[i].name, r[j].name) {
        if i == 0 {
          if j > 1 {
            OrdinalTransitive(t.name, ts[0].name, ts[j - 1].name);
          }
        } else {
          assert r[i] == ts[i - 1] && r[j] == ts[j - 1];
        }
      }
    } else {
      var head, tail := ts[0], ts[1..];
      var rest := InsertByName(t, tail);
      assert r == [head] + rest;
      assert SortedByName(tail) by {
        forall i, j | 0 <= i < j < |tail| ensures OrdinalLessOrEqual(tail[i].name, tail[j].name) {
          assert tail[i] == ts[i + 1] && tail[j] == ts[j + 1];
        }
      }
      InsertKeepsSorted(t, tail);
      OrdinalTotal(t.name, head.name);
      assert forall i :: 0 <= i < |tail| ==> OrdinalLessOrEqual(head.name, tail[i].name) by {
        forall i | 0 <= i < |tail| ensures OrdinalLessOrEqual(head.name, tail[i].name) {
          assert tail[i] == ts[i + 1];
        }
      }
      InsertKeepsLowerBound(head.name, t, tail);
      forall i, j | 0 <= i < j < |r| ensures OrdinalLessOrEqual(r[i].name, r[j].name) {
        assert r[j] == rest[j - 1];
        if i > 0 {
          assert r[i] == rest[i - 1];
        }
      }
    }
  }

  lemma {:induction false} InsertIsStable(t: Target, ts: seq<Target>, name: string)
    ensures Named(InsertByName(t, ts), name) == Named([t] + ts, name)
  {
    if ts != [] && !OrdinalLessOrEqual(t.name, ts[0].name) {
      var head, tail := ts[0], ts[1..];
      var rest := InsertByName(t, tail);
      var a := if head.name == name then [head] else [];
      var b := if t.name == name then [t] else [];
      InsertIsStable(t, tail, name);
      NamedCons(head, rest, name);
      NamedCons(t, tail, name);
      assert Named(InsertByName(t, ts), name) == a + (b + Named(tail, name));
      assert ts == [head] + tail;
      NamedCons(head, tail, name);
      NamedCons(t, ts, name);
      assert Named([t] + ts, name) == b + (a + Named(tail, name));
      if t.name == name && head.name == name {
        OrdinalReflexive(t.name);
        assert false;
      }
    }
  }

  /** `targets.OrderBy(t => t.Name)` under the ordinal order: sorted, a permutation, and stable
    * (targets of equal name keep their declaration order). */
  function SortByName(ts: seq<Target>): (r: seq<Target>)
    ensures SortedByName(r)
    ensures multiset(r) == multiset(ts)
    ensures forall name :: Named(r, name) == Named(ts, name)
  {
    if ts == [] then []
    else
      var rest := SortByName(ts[1..]);
      var r := InsertByName(ts[0], rest);
      InsertKeepsSorted(ts[0], rest);
      InsertIsPermutation(ts[0], rest);
      assert ts == [ts[0]] + ts[1..];
      forall name ensures Named(r, name) == Named(ts, name) {
        InsertIsStable(ts[0], rest, name);
        NamedCons(ts[0], rest, name);
        NamedCons(ts[0], ts[1..], name);
      }
      r
  }

  /** `CreateHyperlinkForTargetOverviewFile`: the target's name, linked to
    * `Path.Combine(".", "Targets", "<name>.<extension>")`, with a fixed tooltip. */
  function TargetHyperlink(t: Target, extension: string, platform: Platform): Hyperlink
  {
    var sep := platform.directorySeparator;
    Hyperlink(t.name,
              PathCombine(sep, PathCombine(sep, ".", "Targets"), t.name + "." + extension),
              "See more about the target " + t.name + ".")
  }

  /** The link points at the target's own document, `<title>.<extension>`, in the Targets
    * sub-directory; a name starting with the separator is rooted and replaces the directory. */
  lemma TargetHyperlinkPointsAtTargetDocument(t: Target, factory: DocumentFactory, platform: Platform)
    requires platform.directorySeparator == '/' || platform.directorySeparator == '\\'
    ensures var link := TargetHyperlink(t, factory.defaultFileExtension, platform);
            var doc := factory.Create(t.name);
            var sep := platform.directorySeparator;
            && link.displayString == t.name
            && link.toolTip == "See more about the target " + t.name + "."
            && (t.name == [] || t.name[0] != sep ==>
                  link.hyperlink == "." + [sep] + "Targets" + [sep] + doc.title + "." + doc.defaultFileExtension)
            && (t.name != [] && t.name[0] == sep ==>
                  link.hyperlink == doc.title + "." + doc.defaultFileExtension)
  {
    var sep := platform.directorySeparator;
    var file := t.name + "." + factory.defaultFileExtension;
    assert file != [];
    assert t.name == [] ==> file[0] == '.';
    assert t.name != [] ==> file[0] == t.name[0];
    var dir := PathCombine(sep, ".", "Targets");
    assert dir == "." + [sep] + "Targets";
    assert dir[|dir| - 1] == 's';
  }

  function TargetRow(t: Target, extension: string, platform: Platform): seq<Cell>
  {
    [LinkCell(TargetHyperlink(t, extension, platform)), TextCell(DescriptionCell(t.help))]
  }

  /** One (Target, Description) row per target, in the given order. */
  function TargetRows(ts: seq<Target>, extension: string, platform: Platform): (r: seq<seq<Cell>>)
    ensures |r| == |ts|
    ensures forall k :: 0 <= k < |ts| ==> r[k] == TargetRow(ts[k], extension, platform)
    decreases |ts|
  {
    if ts == [] then [] else TargetRows(ts[..|ts| - 1], extension, platform) + [TargetRow(ts[|ts| - 1], extension, platform)]
  }

  function TargetsIntro(title: string): string
  {
    TargetsIntroHead + title + TargetsIntroTail
  }

  /** What `AppendTargetSection` appends for a non-null target list: nothing for no targets,
    * else the "Targets" chapter with one row per target, sorted by name. */
  function TargetChapters(title: string, extension: string, targets: seq<Target>, platform: Platform): seq<Chapter>
  {
    if |targets| == 0 then []
    else
      [Chapter(TargetsTitle,
               [StringContent(TargetsIntro(title)),
                TableContent(Table(TargetHeaders, TargetRows(SortByName(targets), extension, platform)))])]
  }

  /** The Targets table lists every target exactly once, by name ascending. */
  lemma TargetTableListsEveryTargetByName(title: string, extension: string, targets: seq<Target>, platform: Platform)
    requires targets != []
    ensures var rows := TargetChapters(title, extension, targets, platform)[0].body[1].table.rows;
            && |rows| == |targets|
            && (forall i, j :: 0 <= i < j < |rows| ==>
                  OrdinalLessOrEqual(rows[i][0].link.displayString, rows[j][0].link.displayString))
            && (forall t :: t in targets ==> TargetRow(t, extension, platform) in rows)
  {
    var sorted := SortByName(targets);
    var rows := TargetRows(sorted, extension, platform);
    assert |sorted| == |targets| by {
      assert |multiset(sorted)| == |multiset(targets)|;
    }
    forall t | t in targets ensures TargetRow(t, extension, platform) in rows {
      assert t in multiset(sorted);
      var k :| 0 <= k < |sorted| && sorted[k] == t;
      assert rows[k] == TargetRow(t, extension, platform);
    }
  }

  /* ---------------------------------------------------------------------------------------
   * The whole body
   * ------------------------------------------------------------------------------------- */

  /** The chapters `CreateBody` appends to a document. A null target list throws at
    * `targets.Count`, after both property sections were appended. */
  function OverviewChapters(doc: Document, project: Project, platform: Platform): seq<Chapter>
  {
    GlobalPropertyChapters(doc.title, project.properties)
    + PropertyChapters(doc.title, project.properties)
    + (match project.targets
       case None => []
       case Some(ts) => TargetChapters(doc.title, doc.defaultFileExtension, ts, platform))
  }

  lemma GlobalPropertyTitles(title: string, properties: Option<seq<Property>>)
    ensures Titles(GlobalPropertyChapters(title, properties)) ==
              if properties.Some? && exists p :: p in properties.value && p.hasPublicSetter
              then [OverwriteablePropertiesTitle] else []
  {
    if properties.Some? && AnySettable(properties.value) {
      var ps := properties.value;
      var i :| 0 <= i < |ps| && ps[i].hasPublicSetter;
      assert ps[i] in ps;
    }
  }

  lemma PropertyTitles(title: string, properties: Option<seq<Property>>)
    ensures Titles(PropertyChapters(title, properties)) ==
              if properties.Some? && exists p :: p in properties.value && !p.hasPublicSetter
              then [PropertiesTitle] else []
  {
    if properties.Some? && !AllSettable(properties.value) {
      var ps := properties.value;
      var i :| 0 <= i < |ps| && !ps[i].hasPublicSetter;
      assert ps[i] in ps;
    }
  }

  lemma TargetTitles(title: string, extension: string, targets: Option<seq<Target>>, platform: Platform)
    ensures Titles(match targets
                   case None => []
                   case Some(ts) => TargetChapters(title, extension, ts, platform))
            == if targets.Some? && targets.value != [] then [TargetsTitle] else []
  {
  }

  /** Chapters come only in the order Overwriteable Properties, Properties, Targets, each exactly
    * when some settable property, some non-settable property, or some target exists. */
  lemma OverviewChapterOrder(doc: Document, project: Project, platform: Platform)
    ensures Titles(OverviewChapters(doc, project, platform)) ==
              (if project.properties.Some? && exists p :: p in project.properties.value && p.hasPublicSetter
               then [OverwriteablePropertiesTitle] else [])
              + (if project.properties.Some? && exists p :: p in project.properties.value && !p.hasPublicSetter
                 then [PropertiesTitle] else [])
              + (if project.targets.Some? && project.targets.value != [] then [TargetsTitle] else [])
  {
    var g := GlobalPropertyChapters(doc.title, project.properties);
    var p := PropertyChapters(doc.title, project.properties);
    var t := match project.targets
             case None => []
             case Some(ts) => TargetChapters(doc.title, doc.defaultFileExtension, ts, platform);
    assert OverviewChapters(doc, project, platform) == g + p + t;
    TitlesAppend(g, p);
    TitlesAppend(g + p, t);
    GlobalPropertyTitles(doc.title, project.properties);
    PropertyTitles(doc.title, project.properties);
    TargetTitles(doc.title, doc.defaultFileExtension, project.targets, platform);
  }

  /** `CreateOutputDocument`: the document is created from the file name of the project file. */
  function CreateOutputDocument(file: ProjectFile, factory: DocumentFactory): Document
  {
    factory.Create(file.fileName)
  }

  /** The composer: it holds the project and the output document, which its methods extend. */
  class ProjectOverviewGenerator {
    const msBuildProject: Project
    const platform: Platform
    var outputDocument: Document

    /** The output document is created once, titled with the project file's name, and empty. */
    constructor (project: Project, file: ProjectFile, factory: DocumentFactory, platform: Platform)
      ensures msBuildProject == project && this.platform == platform
      ensures outputDocument.title == file.fileName
      ensures outputDocument.defaultFileExtension == factory.defaultFileExtension
      ensures outputDocument.chapters == []
    {
      msBuildProject := project;
      this.platform := platform;
      outputDocument := CreateOutputDocument(file, factory);
    }

    /** `CreateBody`: appends the three sections in order; returns false, instead of throwing,
      * when the target list is null. */
    method CreateBody() returns (ok: bool)
      modifies this
      ensures ok <==> msBuildProject.targets.Some?
      ensures outputDocument == old(outputDocument).(chapters := old(outputDocument).chapters
                                  + OverviewChapters(old(outputDocument), msBuildProject, platform))
    {
      var properties := msBuildProject.properties;
      var targets := msBuildProject.targets;
      AppendGlobalPropertySection(properties);
      AppendPropertySection(properties);
      ok := AppendTargetSection(targets);
    }

    method AppendTargetSection(targets: Option<seq<Target>>) returns (ok: bool)
      modifies this
      ensures ok <==> targets.Some?
      ensures outputDocument.title == old(outputDocument).title
      ensures outputDocument.defaultFileExtension == old(outputDocument).defaultFileExtension
      ensures outputDocument.chapters == old(outputDocument).chapters
                + (if ok then TargetChapters(old(outputDocument).title, old(outputDocument).defaultFileExtension,
                                             targets.value, platform)
                   else [])
    {
      if targets.None? {
        return false;
      }
      ok := true;
      var ts := targets.value;
      if |ts| == 0 {
        return;
      }
      var sorted := SortByName(ts);
      var rows: seq<seq<Cell>> := [];
      var i := 0;
      while i < |sorted|
        invariant 0 <= i <= |sorted|
        invariant rows == TargetRows(sorted[..i], outputDocument.defaultFileExtension, platform)
        invariant outputDocument == old(outputDocument)
      {
        assert sorted[..i + 1][..i] == sorted[..i];
        rows := rows + [TargetRow(sorted[i], outputDocument.defaultFileExtension, platform)];
        i := i + 1;
      }
      assert sorted[..i] == sorted;
      var chapter := Chapter(TargetsTitle,
                             [StringContent(TargetsIntro(outputDocument.title)),
                              TableContent(Table(TargetHeaders, rows))]);
      outputDocument := outputDocument.(chapters := outputDocument.chapters + [chapter]);
    }

    method AppendPropertySection(properties: Option<seq<Property>>)
      modifies this
      ensures outputDocument == old(outputDocument).(chapters := old(outputDocument).chapters
                                  + PropertyChapters(old(outputDocument).title, properties))
    {
      if properties.None? || AllSettable(properties.value) {
        assert outputDocument.chapters + [] == outputDocument.chapters;
        return;
      }
      var ps := properties.value;
      var rows: seq<seq<Cell>> := [];
      var i := 0;
      while i < |ps|
        invariant 0 <= i <= |ps|
        invariant rows == PropertyRows(WithSetter(ps[..i], false))
        invariant outputDocument == old(outputDocument)
      {
        assert ps[..i + 1] == ps[..i] + [ps[i]];
        SelectedRowsSnoc(ps[..i], ps[i], false);
        if !ps[i].hasPublicSetter {
          rows := rows + [PropertyRow(ps[i])];
        }
        i := i + 1;
      }
      assert ps[..i] == ps;
      var chapter := Chapter(PropertiesTitle,
                             [StringContent(NotSettablePropertiesIntro(outputDocument.title)),
                              TableContent(Table(PropertyHeaders, rows))]);
      assert [chapter] == PropertyChapters(outputDocument.title, properties);
      outputDocument := outputDocument.(chapters := outputDocument.chapters + [chapter]);
    }

    method AppendGlobalPropertySection(properties: Option<seq<Property>>)
      modifies this
      ensures outputDocument == old(outputDocument).(chapters := old(outputDocument).chapters
                                  + GlobalPropertyChapters(old(outputDocument).title, properties))
    {
      if properties.None? || !AnySettable(properties.value) {
        assert outputDocument.chapters + [] == outputDocument.chapters;
        return;
      }
      var ps := properties.value;
      var rows: seq<seq<Cell>> := [];
      var i := 0;
      while i < |ps|
        invariant 0 <= i <= |ps|
        invariant rows == PropertyRows(WithSetter(ps[..i], true))
        invariant outputDocument == old(outputDocument)
      {
        assert ps[..i + 1] == ps[..i] + [ps[i]];
        SelectedRowsSnoc(ps[..i], ps[i], true);
        if ps[i].hasPublicSetter {
          rows := rows + [PropertyRow(ps[i])];
        }
        i := i + 1;
      }
      assert ps[..i] == ps;
      var chapter := Chapter(OverwriteablePropertiesTitle,
                             [StringContent(OverwriteablePropertiesIntro(outputDocument.title)),
                              TableContent(Table(PropertyHeaders, rows))]);
      assert [chapter] == GlobalPropertyChapters(outputDocument.title, properties);
      outputDocument := outputDocument.(chapters := outputDocument.chapters + [chapter]);
    }
  }
}
