/** What the translator produces, stated as functions of the tree and of the heading
    level on entry: each returns the text appended to the output and the heading level
    left behind. The translator's methods are proved to do exactly this. */
module Wiki {
  import opened XmlTree
  import opened Strings

  const SectionTag := "section"
  const BoldTag := "bold"
  const ItalicTag := "italic"
  const HeadingAttribute := "heading"
  const BoldMarker := "'''"
  const ItalicMarker := "''"

  /** Text appended by one step of the walk, and the heading level after it. */
  datatype Rendered = Rendered(text: string, level: int)

  /** `n` equals signs. */
  function EqualsRun(n: nat): (r: string)
    ensures |r| == n
    ensures forall i :: 0 <= i < n ==> r[i] == '='
  {
    if n == 0 then "" else EqualsRun(n - 1) + "="
  }

  /** The `=` run that frames a heading at `level`: at most six signs, none at level
      zero or below. */
  function HeadingMarkup(level: int): (m: string)
    ensures level >= 6 ==> m == "======"
    ensures 0 <= level < 6 ==> |m| == level && forall i :: 0 <= i < |m| ==> m[i] == '='
    ensures level <= 0 ==> m == ""
  {
    EqualsRun(if level >= 6 then 6 else if level <= 0 then 0 else level)
  }

  /** The heading title; a missing attribute is concatenated as the word null. */
  function HeadingTitle(heading: Option<string>): string
  {
    match heading
    case Some(title) => title
    case None => "null"
  }

  /** The heading line a section emits at `level`. */
  function HeadingLine(level: int, heading: Option<string>): string
  {
    var markup := HeadingMarkup(level);
    "\n" + markup + HeadingTitle(heading) + markup + "\n"
  }

  /** A text node: nothing when it normalises to the empty string, the normalised
      text on a line of its own under a section, the bare normalised text elsewhere. */
  function RenderText(value: string, parentName: string): string
  {
    var normalized := Normalize(value);
    if normalized == [] then ""
    else if parentName == SectionTag then "\n" + normalized + "\n"
    else normalized
  }

  /** A whole content list. */
  function RenderList(contentList: seq<Node>, parentName: string, level: int): Rendered
    decreases contentList, |contentList| + 1
  {
    RenderPrefix(contentList, |contentList|, parentName, level)
  }

  /** The first `count` items of a content list, item after item, each starting at the
      level the previous one left. */
  function RenderPrefix(contentList: seq<Node>, count: nat, parentName: string, level: int): Rendered
    requires count <= |contentList|
    decreases contentList, count
  {
    if count == 0 then Rendered("", level)
    else
      var before := RenderPrefix(contentList, count - 1, parentName, level);
      var last := RenderNode(contentList[count - 1], parentName, before.level);
      Rendered(before.text + last.text, last.level)
  }

  /** One content item: text, an element, or anything else (which emits nothing). */
  function RenderNode(content: Node, parentName: string, level: int): Rendered
    decreases content, 2
  {
    match content
    case Text(value) => Rendered(RenderText(value, parentName), level)
    case Elem(_, _, _) => RenderElement(content, level)
    case Other => Rendered("", level)
  }

  /** Dispatch on the tag name; an unknown tag emits nothing and its content is skipped. */
  function RenderElement(element: Node, level: int): Rendered
    requires element.Elem?
    decreases element, 1
  {
    if element.name == SectionTag then RenderSection(element, level)
    else if element.name == BoldTag then RenderEmphasis(element, BoldMarker, level)
    else if element.name == ItalicTag then RenderEmphasis(element, ItalicMarker, level)
    else Rendered("", level)
  }

  /** A section: its heading line at the entry level, then its content one level deeper
      when it has any; the level is lowered by one on the way out in both cases, so a
      section without content leaves the level one below where it found it. */
  function RenderSection(element: Node, level: int): Rendered
    requires element.Elem?
    decreases element, 0
  {
    var head := HeadingLine(level, AttributeValue(element, HeadingAttribute));
    if |element.content| > 0 then
      var inner := RenderList(element.content, element.name, level + 1);
      Rendered(head + inner.text, inner.level - 1)
    else
      Rendered(head, level - 1)
  }

  /** Bold or italic: the marker, the content when there is any, the marker again. */
  function RenderEmphasis(element: Node, marker: string, level: int): Rendered
    requires element.Elem?
    decreases element, 0
  {
    var inner :=
      if |element.content| > 0 then RenderList(element.content, element.name, level)
      else Rendered("", level);
    Rendered(marker + inner.text + marker, inner.level)
  }

  /** Independent count of the sections without content that the walk reaches: through
      sections, bold and italic, but not through elements of other names. */
  function EmptySections(contentList: seq<Node>): nat
    decreases contentList
  {
    if contentList == [] then 0
    else EmptySections(contentList[..|contentList| - 1]) + EmptySectionsIn(contentList[|contentList| - 1])
  }

  function EmptySectionsIn(content: Node): nat
    decreases content
  {
    match content
    case Elem(name, _, children) =>
      if name == SectionTag then (if |children| == 0 then 1 else EmptySections(children))
      else if name == BoldTag || name == ItalicTag then EmptySections(children)
      else 0
    case _ => 0
  }

  /** The level after the first `count` items is the level before them, lowered once
      for every section without content that the walk reaches among them. */
  lemma {:induction false} LevelAfterPrefix(contentList: seq<Node>, count: nat, parentName: string, level: int)
    requires count <= |contentList|
    ensures RenderPrefix(contentList, count, parentName, level).level
            == level - EmptySections(contentList[..count])
    decreases contentList, count
  {
    if count > 0 {
      var init := contentList[..count - 1];
      assert contentList[..count][..count - 1] == init;
      LevelAfterPrefix(contentList, count - 1, parentName, level);
      LevelAfterNode(contentList[count - 1], parentName, level - EmptySections(init));
    }
  }

  /** The level after a whole content list; a list that reaches no section without
      content leaves the level as it found it. */
  lemma LevelAfterList(contentList: seq<Node>, parentName: string, level: int)
    ensures RenderList(contentList, parentName, level).level == level - EmptySections(contentList)
    ensures EmptySections(contentList) == 0 ==> RenderList(contentList, parentName, level).level == level
    decreases contentList, |contentList| + 1
  {
    LevelAfterPrefix(contentList, |contentList|, parentName, level);
    assert contentList[..|contentList|] == contentList;
  }

  lemma {:induction false} LevelAfterNode(content: Node, parentName: string, level: int)
    ensures RenderNode(content, parentName, level).level == level - EmptySectionsIn(content)
    decreases content
  {
    match content
    case Elem(name, _, children) =>
      if name == SectionTag {
        assert RenderNode(content, parentName, level) == RenderSection(content, level);
        if |children| > 0 { LevelAfterList(children, name, level + 1); }
      } else if name == BoldTag || name == ItalicTag {
        var marker := if name == BoldTag then BoldMarker else ItalicMarker;
        assert RenderNode(content, parentName, level) == RenderEmphasis(content, marker, level);
        if |children| > 0 { LevelAfterList(children, name, level); }
      }
    case _ =>
  }

  /** Append-only: the text of a shorter prefix of a content list is a prefix of the
      text of a longer one. */
  lemma {:induction false} PrefixTextGrows(contentList: seq<Node>, shorter: nat, longer: nat, parentName: string, level: int)
    requires shorter <= longer <= |contentList|
    ensures IsPrefix(RenderPrefix(contentList, shorter, parentName, level).text,
                     RenderPrefix(contentList, longer, parentName, level).text)
    decreases longer
  {
    var s := RenderPrefix(contentList, shorter, parentName, level).text;
    if shorter == longer {
      PrefixOfAppend(s, "");
      assert s + "" == s;
    } else {
      var m := RenderPrefix(contentList, longer - 1, parentName, level).text;
      var l := RenderPrefix(contentList, longer, parentName, level).text;
      PrefixTextGrows(contentList, shorter, longer - 1, parentName, level);
      assert IsPrefix(m, l) by { PrefixTextStep(contentList, longer - 1, parentName, level); }
      PrefixTrans(s, m, l);
    }
  }

  /** One more item only appends to the text. */
  lemma PrefixTextStep(contentList: seq<Node>, count: nat, parentName: string, level: int)
    requires count < |contentList|
    ensures IsPrefix(RenderPrefix(contentList, count, parentName, level).text,
                     RenderPrefix(contentList, count + 1, parentName, level).text)
  {
    var before := RenderPrefix(contentList, count, parentName, level);
    var last := RenderNode(contentList[count], parentName, before.level);
    assert RenderPrefix(contentList, count + 1, parentName, level).text == before.text + last.text;
    PrefixOfAppend(before.text, last.text);
  }

  /** The item at position `i` of a content list is rendered at the entry level lowered
      by the empty sections before it, right after the text of the items before it.
      In particular, sibling sections preceded by no empty section all get the entry
      level's heading markup. */
  lemma SiblingLevel(contentList: seq<Node>, i: nat, parentName: string, level: int)
    requires i < |contentList|
    ensures RenderPrefix(contentList, i + 1, parentName, level).text
            == RenderPrefix(contentList, i, parentName, level).text
               + RenderNode(contentList[i], parentName, level - EmptySections(contentList[..i])).text
  {
    LevelAfterPrefix(contentList, i, parentName, level);
  }

  predicate TextOnly(contentList: seq<Node>)
  {
    forall i :: 0 <= i < |contentList| ==> contentList[i].Text?
  }

  /** Reference definition: the normalised values of text nodes, concatenated. */
  function NormalizedValues(contentList: seq<Node>): string
    requires TextOnly(contentList)
  {
    if contentList == [] then ""
    else NormalizedValues(contentList[..|contentList| - 1]) + Normalize(contentList[|contentList| - 1].value)
  }

  lemma {:induction false} TextOnlyPrefix(contentList: seq<Node>, count: nat, parentName: string, level: int)
    requires count <= |contentList|
    requires TextOnly(contentList)
    requires parentName != SectionTag
    ensures RenderPrefix(contentList, count, parentName, level) == Rendered(NormalizedValues(contentList[..count]), level)
    decreases count
  {
    if count > 0 {
      var node := contentList[count - 1];
      assert node.Text?;
      var before := RenderPrefix(contentList, count - 1, parentName, level);
      TextOnlyPrefix(contentList, count - 1, parentName, level);
      assert RenderNode(node, parentName, before.level) == Rendered(Normalize(node.value), level) by {
        assert RenderText(node.value, parentName) == Normalize(node.value);
      }
      var prefix := contentList[..count];
      assert NormalizedValues(prefix) == NormalizedValues(contentList[..count - 1]) + Normalize(node.value) by {
        assert prefix[..count - 1] == contentList[..count - 1];
        assert prefix[count - 1] == node;
      }
    }
  }

  /** Under any element other than a section, a list of text nodes renders as the
      concatenation of their normalised values and leaves the level unchanged. */
  lemma TextOnlyList(contentList: seq<Node>, parentName: string, level: int)
    requires TextOnly(contentList)
    requires parentName != SectionTag
    ensures RenderList(contentList, parentName, level) == Rendered(NormalizedValues(contentList), level)
  {
    TextOnlyPrefix(contentList, |contentList|, parentName, level);
    assert contentList[..|contentList|] == contentList;
  }
}
