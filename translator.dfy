/** The translator: a walk over the document tree that appends wiki markup to an output
    string and keeps the current heading depth in a mutable counter. The counter starts
    at 1 and lives as long as the translator; nothing resets it between documents. */
module Translator {
  import opened XmlTree
  import opened Wiki
  import Rewrites
  import Strings

  class XmlToWikiParser {
    /** The current heading depth. */
    var headingLevel: int

    constructor ()
      ensures headingLevel == 1
    {
      headingLevel := 1;
    }

    /** Appends the translation of `contentList`, whose items are the content of an
        element named `parentName`, to `output`. The text already in `output` is kept
        as it is; what follows it, and the depth left behind, are as `RenderList` says. */
    method ProcessContentList(contentList: seq<Node>, parentName: string, output: string) returns (result: string)
      modifies this
      ensures result == output + RenderList(contentList, parentName, old(headingLevel)).text
      ensures headingLevel == RenderList(contentList, parentName, old(headingLevel)).level
      decreases contentList
    {
      ghost var start := headingLevel;
      result := output;
      var i := 0;
      while i < |contentList|
        invariant i <= |contentList|
        invariant result == output + RenderPrefix(contentList, i, parentName, start).text
        invariant headingLevel == RenderPrefix(contentList, i, parentName, start).level
      {
        var content := contentList[i];
        ghost var before := RenderPrefix(contentList, i, parentName, start);
        ghost var step := RenderNode(content, parentName, before.level);
        assert RenderPrefix(contentList, i + 1, parentName, start) == Rendered(before.text + step.text, step.level);
        Strings.Assoc(output, before.text, step.text);
        ghost var prior := result;
        match content {
          case Text(value) =>
            var normalizedText := Normalize(value);
            assert step.text == RenderText(value, parentName);
            if normalizedText != [] {
              if parentName == SectionTag {
                result := result + "\n" + normalizedText + "\n";
                assert step.text == "\n" + normalizedText + "\n";
              } else {
                result := result + normalizedText;
              }
            }
          case Elem(_, _, _) =>
            result := ProcessElement(content, result);
          case Other =>
        }
        assert result == prior + step.text;
        i := i + 1;
      }
    }

    /** Dispatches on the tag name; elements of any other name add nothing. */
    method ProcessElement(element: Node, output: string) returns (result: string)
      requires element.Elem?
      modifies this
      ensures result == output + RenderElement(element, old(headingLevel)).text
      ensures headingLevel == RenderElement(element, old(headingLevel)).level
      decreases element, 1
    {
      if element.name == SectionTag {
        result := ProcessSection(element, output);
      } else if element.name == BoldTag {
        result := ProcessBold(element, output);
      } else if element.name == ItalicTag {
        result := ProcessItalic(element, output);
      } else {
        result := output;
      }
    }

    /** Appends the heading line at the current depth, then the content one level
        deeper when there is any, and lowers the depth by one on the way out. */
    method ProcessSection(element: Node, output: string) returns (result: string)
      requires element.Elem?
      modifies this
      ensures result == output + RenderSection(element, old(headingLevel)).text
      ensures headingLevel == RenderSection(element, old(headingLevel)).level
      decreases element, 0
    {
      ghost var entry := headingLevel;
      var markup := GetHeadingMarkup(headingLevel);
      result := output + "\n" + markup + HeadingTitle(AttributeValue(element, HeadingAttribute)) + markup + "\n";
      ghost var head := HeadingLine(headingLevel, AttributeValue(element, HeadingAttribute));
      assert result == output + head;
      if |element.content| > 0 {
        headingLevel := headingLevel + 1;
        result := ProcessContentList(element.content, element.name, result);
        Strings.Assoc(output, head, RenderList(element.content, element.name, entry + 1).text);
      }
      headingLevel := headingLevel - 1;
    }

    /** Appends the content between two bold markers. */
    method ProcessBold(element: Node, output: string) returns (result: string)
      requires element.Elem?
      modifies this
      ensures result == output + RenderEmphasis(element, BoldMarker, old(headingLevel)).text
      ensures headingLevel == RenderEmphasis(element, BoldMarker, old(headingLevel)).level
      decreases element, 0
    {
      result := output + BoldMarker;
      if |element.content| > 0 {
        result := ProcessContentList(element.content, element.name, result);
      }
      result := result + BoldMarker;
    }

    /** Appends the content between two italic markers. */
    method ProcessItalic(element: Node, output: string) returns (result: string)
      requires element.Elem?
      modifies this
      ensures result == output + RenderEmphasis(element, ItalicMarker, old(headingLevel)).text
      ensures headingLevel == RenderEmphasis(element, ItalicMarker, old(headingLevel)).level
      decreases element, 0
    {
      result := output + ItalicMarker;
      if |element.content| > 0 {
        result := ProcessContentList(element.content, element.name, result);
      }
      result := result + ItalicMarker;
    }

    /** The `=` run for a heading at `level`, built one sign at a time below six. */
    static method GetHeadingMarkup(level: int) returns (markup: string)
      ensures markup == HeadingMarkup(level)
    {
      markup := "";
      if level >= 6 {
        markup := "======";
      } else {
        var i := 0;
        while i < level
          invariant 0 <= i && (i <= level || i == 0)
          invariant markup == EqualsRun(i)
        {
          markup := markup + "=";
          i := i + 1;
        }
      }
    }

    /** One input file: its root element's content is translated starting from the
        current depth (not reset), double newlines are collapsed, and the output file
        name is derived from the input file name. */
    method ProcessFile(fileName: string, root: Node) returns (wikiFileName: string, normalizedOutput: string)
      requires root.Elem?
      modifies this
      ensures var rendered := RenderList(root.content, root.name, old(headingLevel));
              normalizedOutput == Rewrites.CollapseNewlines(rendered.text)
              && headingLevel == rendered.level
      ensures wikiFileName == Rewrites.RenameToWiki(fileName)
    {
      var output := "";
      output := ProcessContentList(root.content, root.name, output);
      assert output == RenderList(root.content, root.name, old(headingLevel)).text;
      normalizedOutput := Rewrites.CollapseNewlines(output);
      wikiFileName := Rewrites.RenameToWiki(fileName);
    }
  }
}
