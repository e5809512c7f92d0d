/** Small documents translated end to end, for any titles and texts: sibling and nested
    sections, emphasis inside a section, the behaviour of empty sections, a missing
    heading attribute, and unknown elements. */
module Scenarios {
  import opened XmlTree
  import opened Wiki
  import opened Rewrites
  import opened Strings

  /** A section element carrying a heading attribute. */
  function Section(title: string, content: seq<Node>): Node
  {
    Elem(SectionTag, map[HeadingAttribute := title], content)
  }

  lemma RenderOne(n: Node, parentName: string, level: int)
    ensures RenderList([n], parentName, level) == RenderNode(n, parentName, level)
  {
    assert RenderPrefix([n], 0, parentName, level) == Rendered("", level);
    assert "" + RenderNode(n, parentName, level).text == RenderNode(n, parentName, level).text;
  }

  lemma RenderTwo(a: Node, b: Node, parentName: string, level: int)
    ensures var ra := RenderNode(a, parentName, level);
            var rb := RenderNode(b, parentName, ra.level);
            RenderList([a, b], parentName, level) == Rendered(ra.text + rb.text, rb.level)
  {
    var ra := RenderNode(a, parentName, level);
    assert RenderPrefix([a, b], 1, parentName, level) == Rendered("" + ra.text, ra.level);
    assert "" + ra.text == ra.text;
  }

  /** A text node emits nothing when it is all white space, its normalised value on a
      line of its own under a section, and the bare normalised value elsewhere. */
  lemma TextUnder(value: string, parentName: string, level: int)
    ensures RenderNode(Text(value), parentName, level)
            == Rendered(if AllSpace(value) then ""
                        else if parentName == SectionTag then "\n" + Normalize(value) + "\n"
                        else Normalize(value), level)
  {
    NormalizeEmpty(value);
  }

  lemma SectionWith(title: string, content: seq<Node>, parentName: string, level: int)
    ensures RenderNode(Section(title, content), parentName, level) == RenderSection(Section(title, content), level)
    ensures AttributeValue(Section(title, content), HeadingAttribute) == Some(title)
  {
  }

  lemma SmallMarkups()
    ensures HeadingMarkup(0) == "" && HeadingMarkup(1) == "=" && HeadingMarkup(2) == "=="
  {
    assert EqualsRun(1) == "=";
    assert EqualsRun(2) == "==";
  }

  /** A section holding text of its own at the first level. */
  lemma SectionWithText(title: string, value: string, parentName: string)
    requires !AllSpace(value)
    ensures RenderNode(Section(title, [Text(value)]), parentName, 1)
            == Rendered("\n" + "=" + title + "=" + "\n" + ("\n" + Normalize(value) + "\n"), 1)
  {
    SmallMarkups();
    TextUnder(value, SectionTag, 2);
    RenderOne(Text(value), SectionTag, 2);
    SectionWith(title, [Text(value)], parentName, 1);
  }

  /** At level 1, two sibling sections that each hold one non-blank text both get `=`
      markup, and the level is 1 again afterwards. */
  lemma SiblingSections(a: string, x: string, b: string, y: string, parentName: string)
    requires !AllSpace(x) && !AllSpace(y)
    ensures RenderList([Section(a, [Text(x)]), Section(b, [Text(y)])], parentName, 1)
            == Rendered("\n" + "=" + a + "=" + "\n" + ("\n" + Normalize(x) + "\n")
                        + ("\n" + "=" + b + "=" + "\n" + ("\n" + Normalize(y) + "\n")), 1)
  {
    SectionWithText(a, x, parentName);
    SectionWithText(b, y, parentName);
    RenderTwo(Section(a, [Text(x)]), Section(b, [Text(y)]), parentName, 1);
  }

  /** At level 1, a section holding one section that holds one non-blank text: the inner
      heading gets `==` under the outer `=`, and the level is 1 again afterwards. */
  lemma NestedSections(a: string, b: string, x: string, parentName: string)
    requires !AllSpace(x)
    ensures RenderList([Section(a, [Section(b, [Text(x)])])], parentName, 1)
            == Rendered("\n" + "=" + a + "=" + "\n" + ("\n" + "==" + b + "==" + "\n" + ("\n" + Normalize(x) + "\n")), 1)
  {
    SmallMarkups();
    TextUnder(x, SectionTag, 3);
    RenderOne(Text(x), SectionTag, 3);
    var inner := Section(b, [Text(x)]);
    SectionWith(b, [Text(x)], SectionTag, 2);
    RenderOne(inner, SectionTag, 2);
    SectionWith(a, [inner], parentName, 1);
    RenderOne(Section(a, [inner]), parentName, 1);
  }

  /** Text and bold inside a section: the section's own text sits on a line of its own,
      the bold text does not. */
  lemma SectionWithBold(title: string, x: string, y: string, parentName: string)
    requires !AllSpace(x) && !AllSpace(y)
    ensures RenderList([Section(title, [Text(x), Elem(BoldTag, map[], [Text(y)])])], parentName, 1)
            == Rendered("\n" + "=" + title + "=" + "\n"
                        + ("\n" + Normalize(x) + "\n" + (BoldMarker + Normalize(y) + BoldMarker)), 1)
  {
    SmallMarkups();
    var bold := Elem(BoldTag, map[], [Text(y)]);
    TextUnder(y, BoldTag, 2);
    RenderOne(Text(y), BoldTag, 2);
    assert RenderNode(bold, SectionTag, 2) == RenderEmphasis(bold, BoldMarker, 2);
    TextUnder(x, SectionTag, 2);
    RenderTwo(Text(x), bold, SectionTag, 2);
    SectionWith(title, [Text(x), bold], parentName, 1);
    RenderOne(Section(title, [Text(x), bold]), parentName, 1);
  }

  /** The same document after the collapse: the blank line after the heading goes,
      the line break between the section's text and the bold text stays. */
  lemma SectionWithBoldCollapsed(title: string, x: string, y: string, parentName: string)
    requires !AllSpace(x) && !AllSpace(y) && NoNewline(title)
    ensures CollapseNewlines(RenderList([Section(title, [Text(x), Elem(BoldTag, map[], [Text(y)])])], parentName, 1).text)
            == "\n" + "=" + title + "=" + "\n" + (Normalize(x) + "\n" + (BoldMarker + Normalize(y) + BoldMarker))
  {
    SectionWithBold(title, x, y, parentName);
    var nx, ny := Normalize(x), Normalize(y);
    var bold := BoldMarker + ny + BoldMarker;
    var line := "=" + title + "=";
    var body := nx + "\n" + bold;
    assert NoNewline(nx) && nx != [] by {
      NormalizeEmpty(x);
      NormalizeShape(x);
    }
    assert NoNewline(bold) by {
      NormalizeShape(y);
    }
    assert CollapseNewlines(body) == body by {
      CollapseKeepsText(bold);
      CollapseLoneNewline(bold);
      CollapseThroughText(nx, "\n" + bold);
      Assoc(nx, "\n", bold);
    }
    assert "\n" + "=" + title + "=" == "\n" + line by {
      Assoc("\n", "=", title);
      Assoc("\n", "=" + title, "=");
    }
    assert "\n" + nx + "\n" + bold == "\n" + body by {
      Assoc("\n", nx, "\n");
      Assoc("\n", nx + "\n", bold);
    }
    assert NoNewline(line) && line[0] == '=';
    assert body[0] == nx[0];
    CollapseAfterLine(line, body);
  }

  /** The two texts of the example below, normalised: the trailing blank goes. */
  lemma HelloText()
    ensures !AllSpace("Hello ") && Normalize("Hello ") == "Hello"
  {
    assert !IsXmlSpace("Hello "[0]);
    assert NormalForm("Hello") by {
      assert forall i :: 0 <= i < 5 ==> "Hello"[i] != ' ' && !IsXmlSpace("Hello"[i]);
    }
    NormalizeTrailingBlank("Hello");
    assert "Hello" + " " == "Hello ";
  }

  lemma WorldText()
    ensures !AllSpace("world") && Normalize("world") == "world"
  {
    assert !IsXmlSpace("world"[0]);
    assert NormalForm("world") by {
      assert forall i :: 0 <= i < 5 ==> "world"[i] != ' ' && !IsXmlSpace("world"[i]);
    }
    NormalizeKeepsNormalForm("world");
  }

  /** The document `section heading="Intro"` holding the text "Hello " and a bold
      "world": the text loses its trailing blank and sits on its own line. */
  lemma IntroRendered(parentName: string)
    ensures RenderList([Section("Intro", [Text("Hello "), Elem(BoldTag, map[], [Text("world")])])], parentName, 1).text
            == "\n" + "=" + "Intro" + "=" + "\n" + ("\n" + "Hello" + "\n" + ("'''" + "world" + "'''"))
  {
    HelloText();
    WorldText();
    SectionWithBold("Intro", "Hello ", "world", parentName);
  }

  /** After the collapse, the blank line below the heading is gone. */
  lemma IntroExample(parentName: string)
    ensures CollapseNewlines(RenderList([Section("Intro", [Text("Hello "), Elem(BoldTag, map[], [Text("world")])])], parentName, 1).text)
            == "\n" + "=" + "Intro" + "=" + "\n" + ("Hello" + "\n" + ("'''" + "world" + "'''"))
  {
    IntroRendered(parentName);
    var line, body := "=" + "Intro" + "=", "Hello" + "\n" + ("'''" + "world" + "'''");
    assert NoNewline(line) && line[0] == '=';
    assert CollapseNewlines(body) == body by {
      CollapseKeepsText("'''" + "world" + "'''");
      CollapseLoneNewline("'''" + "world" + "'''");
      CollapseThroughText("Hello", "\n" + ("'''" + "world" + "'''"));
      Assoc("Hello", "\n", "'''" + "world" + "'''");
    }
    assert "\n" + "=" + "Intro" + "=" == "\n" + line by {
      Assoc("\n", "=", "Intro");
      Assoc("\n", "=" + "Intro", "=");
    }
    assert "\n" + "Hello" + "\n" + ("'''" + "world" + "'''") == "\n" + body by {
      Assoc("\n", "Hello", "\n");
      Assoc("\n", "Hello" + "\n", "'''" + "world" + "'''");
    }
    assert body[0] == 'H';
    CollapseAfterLine(line, body);
  }

  /** One section without content: its heading line, and the level one lower. */
  lemma EmptySection(title: string, parentName: string, level: int)
    ensures RenderNode(Section(title, []), parentName, level) == Rendered(HeadingLine(level, Some(title)), level - 1)
  {
    SectionWith(title, [], parentName, level);
  }

  /** Two empty sections: the second is rendered one level lower, here without any
      `=`, and the level ends two below where it started. */
  lemma EmptySectionsLowerTheLevel(a: string, b: string, parentName: string)
    ensures RenderList([Section(a, []), Section(b, [])], parentName, 1)
            == Rendered("\n" + "=" + a + "=" + "\n" + ("\n" + b + "\n"), -1)
  {
    SmallMarkups();
    EmptySection(a, parentName, 1);
    EmptySection(b, parentName, 0);
    assert HeadingLine(0, Some(b)) == "\n" + b + "\n" by {
      assert "\n" + "" + b + "" + "\n" == "\n" + b + "\n";
    }
    RenderTwo(Section(a, []), Section(b, []), parentName, 1);
  }

  /** Two empty sibling sections at level 1 whose titles hold no newline, the second
      non-empty: after the collapse their heading lines are joined by one newline. */
  lemma EmptySectionsCollapsed(a: string, b: string, parentName: string)
    requires NoNewline(a) && NoNewline(b) && b != []
    ensures CollapseNewlines(RenderList([Section(a, []), Section(b, [])], parentName, 1).text)
            == "\n" + "=" + a + "=" + "\n" + (b + "\n")
  {
    EmptySectionsLowerTheLevel(a, b, parentName);
    var line := "=" + a + "=";
    var body := b + "\n";
    assert CollapseNewlines(body) == body by {
      CollapseLoneNewline("");
      CollapseThroughText(b, "\n");
    }
    assert "\n" + "=" + a + "=" == "\n" + line by {
      Assoc("\n", "=", a);
      Assoc("\n", "=" + a, "=");
    }
    assert "\n" + b + "\n" == "\n" + body by {
      Assoc("\n", b, "\n");
    }
    assert NoNewline(line) && line[0] == '=';
    assert body[0] == b[0];
    CollapseAfterLine(line, body);
  }

  /** A section without a heading attribute shows the word null; empty bold and italic
      still emit both markers. */
  lemma MissingHeadingAndEmptyEmphasis(level: int, parentName: string)
    ensures var markup := HeadingMarkup(level);
            RenderList([Elem(SectionTag, map[], [Elem(BoldTag, map[], []), Elem(ItalicTag, map[], [])])], parentName, level)
            == Rendered("\n" + markup + "null" + markup + "\n" + ("''''''" + "''''"), level)
  {
    var bold, italic := Elem(BoldTag, map[], []), Elem(ItalicTag, map[], []);
    assert RenderNode(bold, SectionTag, level + 1) == Rendered("''''''", level + 1);
    assert RenderNode(italic, SectionTag, level + 1) == Rendered("''''", level + 1);
    RenderTwo(bold, italic, SectionTag, level + 1);
    var section := Elem(SectionTag, map[], [bold, italic]);
    assert AttributeValue(section, HeadingAttribute) == None;
    assert RenderNode(section, parentName, level) == RenderSection(section, level);
    RenderOne(section, parentName, level);
  }

  /** The content of an element of any other name is skipped, sections included. */
  lemma UnknownElementSkipped(name: string, attributes: map<string, string>, content: seq<Node>, parentName: string, level: int)
    requires name != SectionTag && name != BoldTag && name != ItalicTag
    ensures RenderList([Elem(name, attributes, content)], parentName, level) == Rendered("", level)
    ensures RenderList([Other], parentName, level) == Rendered("", level)
  {
    RenderOne(Elem(name, attributes, content), parentName, level);
    RenderOne(Other, parentName, level);
  }
}
