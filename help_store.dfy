/**
  * The help store of an MSBuild element: an ordered list of help paragraphs, each with a
  * section name, a body and an optional qualifier, queried by section name under a
  * comparison mode. The queries are the reference semantics the composers rely on
  * (ContainsSection, LookUp, GetSectionContent); HelpBuilder is the list they are asked of.
  */
module HelpStore {
  import opened Common
  import opened Strings

  /** Section names of the help markup. Lookups ignore case, so only the Example name's
    * spelling shows in a document (as the title of each example chapter). */
  const SynopsisSection := "Synopsis"
  const DescriptionSection := "Description"
  const ParameterSection := "Parameter"
  const OutputsSection := "Outputs"
  const ExampleSection := "Example"

  /** The section names differ even when case is ignored: no paragraph answers to two of them. */
  lemma SectionNamesDiffer()
    ensures FoldCase(SynopsisSection) != FoldCase(DescriptionSection)
    ensures FoldCase(SynopsisSection) != FoldCase(ParameterSection)
    ensures FoldCase(SynopsisSection) != FoldCase(OutputsSection)
    ensures FoldCase(SynopsisSection) != FoldCase(ExampleSection)
    ensures FoldCase(DescriptionSection) != FoldCase(ParameterSection)
    ensures FoldCase(DescriptionSection) != FoldCase(OutputsSection)
    ensures FoldCase(DescriptionSection) != FoldCase(ExampleSection)
    ensures FoldCase(ParameterSection) != FoldCase(OutputsSection)
    ensures FoldCase(ParameterSection) != FoldCase(ExampleSection)
    ensures FoldCase(OutputsSection) != FoldCase(ExampleSection)
  {
    assert FoldCase(SynopsisSection)[0] == 'S';
    assert FoldCase(DescriptionSection)[0] == 'D';
    assert FoldCase(ParameterSection)[0] == 'P';
    assert FoldCase(OutputsSection)[0] == 'O';
    assert FoldCase(ExampleSection)[0] == 'E';
  }

  /** One help paragraph: section name, body, and an optional qualifier (a parameter name, say). */
  datatype HelpParagraph = HelpParagraph(name: string, content: string, additional: Option<string>)

  /** A help store in insertion order; its Count is its length. */
  type Help = seq<HelpParagraph>

  predicate IsMatch(p: HelpParagraph, section: string, cmp: Comparison)
  {
    NameEquals(p.name, section, cmp)
  }

  /** `ContainsSection(section, cmp)`: some paragraph is named `section` under `cmp`. */
  function ContainsSection(help: Help, section: string, cmp: Comparison): (r: bool)
    ensures r <==> exists i :: 0 <= i < |help| && IsMatch(help[i], section, cmp)
  {
    if help == [] then false
    else IsMatch(help[0], section, cmp) || ContainsSection(help[1..], section, cmp)
  }

  /** `LookUp(section, cmp)`: the paragraphs named `section`, kept in insertion order. */
  function LookUp(help: Help, section: string, cmp: Comparison): (r: seq<HelpParagraph>)
    ensures |r| <= |help|
    ensures forall k :: 0 <= k < |r| ==> IsMatch(r[k], section, cmp)
    decreases |help|
  {
    if help == [] then []
    else
      var last := help[|help| - 1];
      LookUp(help[..|help| - 1], section, cmp) + (if IsMatch(last, section, cmp) then [last] else [])
  }

  /** The one-argument `LookUp(section)`, which compares ordinally: exactly the paragraphs whose
    * name is `section`, character for character. */
  function LookUpExact(help: Help, section: string): (r: seq<HelpParagraph>)
    ensures forall k :: 0 <= k < |r| ==> r[k] in help && r[k].name == section
    ensures forall i :: 0 <= i < |help| && help[i].name == section ==> help[i] in r
  {
    LookUpSelectsMatchesInOrder(help, section, Ordinal);
    MatchingPositionsComplete(help, section, Ordinal);
    LookUpFromHelp(help, section, Ordinal);
    var r := LookUp(help, section, Ordinal);
    var pos := MatchingPositions(help, section, Ordinal);
    assert forall i :: 0 <= i < |help| && help[i].name == section ==> help[i] in r by {
      forall i | 0 <= i < |help| && help[i].name == section ensures help[i] in r {
        assert IsMatch(help[i], section, Ordinal);
        var k :| 0 <= k < |pos| && pos[k] == i;
        assert r[k] == help[i];
      }
    }
    r
  }

  /** Positions of the paragraphs named `section`: strictly increasing, and every match is listed. */
  function MatchingPositions(help: Help, section: string, cmp: Comparison): (r: seq<nat>)
    ensures forall k :: 0 <= k < |r| ==> r[k] < |help| && IsMatch(help[r[k]], section, cmp)
    ensures forall k, l :: 0 <= k < l < |r| ==> r[k] < r[l]
    decreases |help|
  {
    if help == [] then []
    else
      var n := |help| - 1;
      MatchingPositions(help[..n], section, cmp) + (if IsMatch(help[n], section, cmp) then [n] else [])
  }

  /** Every matching position is listed. */
  lemma {:induction false} MatchingPositionsComplete(help: Help, section: string, cmp: Comparison)
    ensures forall i :: 0 <= i < |help| && IsMatch(help[i], section, cmp) ==> i in MatchingPositions(help, section, cmp)
    decreases |help|
  {
    if help != [] {
      var n := |help| - 1;
      MatchingPositionsComplete(help[..n], section, cmp);
      forall i | 0 <= i < |help| && IsMatch(help[i], section, cmp)
        ensures i in MatchingPositions(help, section, cmp)
      {
        if i < n {
          assert help[..n][i] == help[i];
        }
      }
    }
  }

  /** LookUp returns exactly the matching paragraphs, in the order they were added. */
  lemma {:induction false} LookUpSelectsMatchesInOrder(help: Help, section: string, cmp: Comparison)
    ensures |LookUp(help, section, cmp)| == |MatchingPositions(help, section, cmp)|
    ensures forall k :: 0 <= k < |LookUp(help, section, cmp)| ==>
              LookUp(help, section, cmp)[k] == help[MatchingPositions(help, section, cmp)[k]]
    decreases |help|
  {
    if help != [] {
      var n := |help| - 1;
      var front := help[..n];
      LookUpSelectsMatchesInOrder(front, section, cmp);
      var look, pos := LookUp(front, section, cmp), MatchingPositions(front, section, cmp);
      assert LookUp(help, section, cmp) == look + (if IsMatch(help[n], section, cmp) then [help[n]] else []);
      assert MatchingPositions(help, section, cmp) == pos + (if IsMatch(help[n], section, cmp) then [n] else []);
      forall k | 0 <= k < |look| ensures look[k] == help[pos[k]] {
        assert front[pos[k]] == help[pos[k]];
      }
    }
  }

  /** The position of the first paragraph named `section`, if there is one. */
  function FirstMatch(help: Help, section: string, cmp: Comparison): (r: Option<nat>)
    ensures r.Some? ==> r.value < |help| && IsMatch(help[r.value], section, cmp)
    ensures r.Some? ==> forall j :: 0 <= j < r.value ==> !IsMatch(help[j], section, cmp)
    ensures r.None? ==> forall j :: 0 <= j < |help| ==> !IsMatch(help[j], section, cmp)
  {
    if help == [] then None
    else if IsMatch(help[0], section, cmp) then Some(0)
    else
      match FirstMatch(help[1..], section, cmp)
      case None => None
      case Some(i) => Some(i + 1)
  }

  /** `GetSectionContent(section, cmp)`: the body of the first paragraph named `section`, or null. */
  function GetSectionContent(help: Help, section: string, cmp: Comparison): (r: Option<string>)
    ensures r.Some? <==> ContainsSection(help, section, cmp)
    ensures r.Some? ==> exists i :: 0 <= i < |help| && IsMatch(help[i], section, cmp) && r.value == help[i].content
  {
    if help == [] then None
    else if IsMatch(help[0], section, cmp) then Some(help[0].content)
    else GetSectionContent(help[1..], section, cmp)
  }

  /** Every paragraph LookUp returns is one of the store's. */
  lemma LookUpFromHelp(help: Help, section: string, cmp: Comparison)
    ensures forall k :: 0 <= k < |LookUp(help, section, cmp)| ==> LookUp(help, section, cmp)[k] in help
  {
    LookUpSelectsMatchesInOrder(help, section, cmp);
  }

  lemma {:induction false} GetSectionContentIsFirstMatch(help: Help, section: string, cmp: Comparison)
    ensures match FirstMatch(help, section, cmp)
            case None => GetSectionContent(help, section, cmp) == None
            case Some(i) => GetSectionContent(help, section, cmp) == Some(help[i].content)
  {
    if help != [] && !IsMatch(help[0], section, cmp) {
      GetSectionContentIsFirstMatch(help[1..], section, cmp);
    }
  }

  /** The three queries agree: a section is present iff LookUp finds it, and then
    * GetSectionContent is the body of the first paragraph LookUp returns. */
  lemma QueriesAgree(help: Help, section: string, cmp: Comparison)
    ensures ContainsSection(help, section, cmp) <==> LookUp(help, section, cmp) != []
    ensures ContainsSection(help, section, cmp) ==>
              GetSectionContent(help, section, cmp) == Some(LookUp(help, section, cmp)[0].content)
    ensures !ContainsSection(help, section, cmp) ==> GetSectionContent(help, section, cmp) == None
  {
    var look, pos := LookUp(help, section, cmp), MatchingPositions(help, section, cmp);
    LookUpSelectsMatchesInOrder(help, section, cmp);
    MatchingPositionsComplete(help, section, cmp);
    GetSectionContentIsFirstMatch(help, section, cmp);
    match FirstMatch(help, section, cmp)
    case None =>
    case Some(i) =>
      assert i in pos;
      assert look[0] == help[i];
  }

  /** What `Remove(section, _)` leaves: the help without its first paragraph named exactly
    * `section`; null when there is none, where the source's First throws. */
  function RemoveFirst(help: Help, section: string): (r: Option<Help>)
    ensures r.Some? <==> ContainsSection(help, section, Ordinal)
    ensures r.Some? ==> |r.value| == |help| - 1
  {
    match FirstMatch(help, section, Ordinal)
    case None => None
    case Some(i) => Some(help[..i] + help[i + 1..])
  }

  /** Removing a section name right after adding the first paragraph of that name undoes the add. */
  lemma RemoveUndoesAdd(help: Help, p: HelpParagraph)
    requires !ContainsSection(help, p.name, Ordinal)
    ensures RemoveFirst(help + [p], p.name) == Some(help)
  {
    var h := help + [p];
    assert IsMatch(h[|help|], p.name, Ordinal);
    match FirstMatch(h, p.name, Ordinal)
    case None =>
    case Some(j) =>
      assert j == |help|;
      assert h[..j] + h[j + 1..] == help;
  }

  /** Removing takes exactly one paragraph of that name away. */
  lemma {:induction false} RemoveTakesOneMatch(help: Help, section: string)
    requires ContainsSection(help, section, Ordinal)
    ensures |LookUp(RemoveFirst(help, section).value, section, Ordinal)| == |LookUp(help, section, Ordinal)| - 1
  {
    var i := FirstMatch(help, section, Ordinal).value;
    var front, x, back := help[..i], help[i], help[i + 1..];
    var removed := RemoveFirst(help, section).value;
    assert removed == front + back;
    assert help == front + ([x] + back);
    LookUpSplit(front, [x] + back, section, Ordinal);
    LookUpSplit([x], back, section, Ordinal);
    LookUpSingle(x, section, Ordinal);
    assert |LookUp(help, section, Ordinal)|
           == |LookUp(front, section, Ordinal)| + 1 + |LookUp(back, section, Ordinal)|;
    LookUpSplit(front, back, section, Ordinal);
  }

  lemma LookUpSingle(x: HelpParagraph, section: string, cmp: Comparison)
    ensures LookUp([x], section, cmp) == if IsMatch(x, section, cmp) then [x] else []
  {
    assert [x][..0] == [];
  }

  /** LookUp distributes over concatenation: the matches of a list are those of its front,
    * then those of its back. */
  /** One more paragraph is appended to the result exactly when it matches. */
  lemma LookUpSnoc(help: Help, p: HelpParagraph, section: string, cmp: Comparison)
    ensures LookUp(help + [p], section, cmp)
            == LookUp(help, section, cmp) + (if IsMatch(p, section, cmp) then [p] else [])
  {
    assert (help + [p])[..|help|] == help;
  }

  lemma {:induction false} LookUpSplit(front: Help, back: Help, section: string, cmp: Comparison)
    ensures LookUp(front + back, section, cmp) == LookUp(front, section, cmp) + LookUp(back, section, cmp)
    decreases |back|
  {
    if back == [] {
      assert front + back == front;
    } else {
      var n := |back| - 1;
      var rest, last := back[..n], back[n];
      assert back == rest + [last];
      assert front + back == (front + rest) + [last];
      LookUpSnoc(front + rest, last, section, cmp);
      LookUpSnoc(rest, last, section, cmp);
      LookUpSplit(front, rest, section, cmp);
    }
  }

  /** When every paragraph is named `section`, LookUp returns the whole list. */
  lemma {:induction false} LookUpAllMatch(help: Help, section: string, cmp: Comparison)
    requires forall i :: 0 <= i < |help| ==> IsMatch(help[i], section, cmp)
    ensures LookUp(help, section, cmp) == help
    decreases |help|
  {
    if help != [] {
      var n := |help| - 1;
      LookUpAllMatch(help[..n], section, cmp);
      assert help[..n] + [help[n]] == help;
    }
  }

  /** The paragraph list of the test helper that builds help stores. */
  class HelpBuilder {
    var paragraphs: Help

    constructor ()
      ensures paragraphs == []
    {
      paragraphs := [];
    }

    /** `AddHelpParagraph(title, content[, additional])`: appends one paragraph at the end;
      * without a qualifier its Additional is null. */
    method AddHelpParagraph(title: string, content: string, additional: Option<string>)
      modifies this
      ensures paragraphs == old(paragraphs) + [HelpParagraph(title, content, additional)]
    {
      paragraphs := paragraphs + [HelpParagraph(title, content, additional)];
    }

    /** `Remove(section, flag)`: deletes the first paragraph named exactly `section` (the flag is
      * ignored). Returns false, leaving the list alone, where the source's First throws. */
    method Remove(section: string, flag: bool) returns (ok: bool)
      modifies this
      ensures ok <==> ContainsSection(old(paragraphs), section, Ordinal)
      ensures ok ==> paragraphs == RemoveFirst(old(paragraphs), section).value
      ensures ok ==> forall j :: 0 <= j < |old(paragraphs)| && j != FirstMatch(old(paragraphs), section, Ordinal).value
                       ==> old(paragraphs)[j] in paragraphs
      ensures !ok ==> paragraphs == old(paragraphs)
    {
      var found := FirstMatch(paragraphs, section, Ordinal);
      match found
      case None =>
        ok := false;
      case Some(i) =>
        ghost var before := paragraphs;
        paragraphs := paragraphs[..i] + paragraphs[i + 1..];
        ok := true;
        forall j | 0 <= j < |before| && j != i
          ensures before[j] in paragraphs
        {
          if j < i {
            assert paragraphs[j] == before[j];
          } else {
            assert paragraphs[j - 1] == before[j];
          }
        }
    }
  }
}
