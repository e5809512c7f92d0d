/** The parsed document tree the translator walks, as the JDOM library hands it over:
    an element's ordered content list mixes text nodes, child elements and content of
    other kinds (comments, CDATA sections, processing instructions, entity references). */
module XmlTree {

  datatype Option<T> = None | Some(value: T)

  /** One item of an element's content list. `Other` stands for every content type
      that is neither plain text nor an element; the translator ignores those. */
  datatype Node =
    | Text(value: string)
    | Elem(name: string, attributes: map<string, string>, content: seq<Node>)
    | Other

  /** The value of attribute `key`, or `None` where the element does not carry it
      (the library returns null then). */
  function AttributeValue(element: Node, key: string): Option<string>
    requires element.Elem?
  {
    if key in element.attributes then Some(element.attributes[key]) else None
  }

  /** The four characters XML counts as white space. */
  predicate IsXmlSpace(c: char)
  {
    c == ' ' || c == '\t' || c == '\n' || c == '\r'
  }

  predicate AllSpace(s: string)
  {
    forall i :: 0 <= i < |s| ==> IsXmlSpace(s[i])
  }

  /** One pass over the text, as the tree library makes it: characters other than
      white space are kept, and a run of white space becomes one blank unless nothing
      has been kept yet or the previous character already was white space (`white`). */
  function CollapseSpaces(s: string, white: bool): string
  {
    if s == [] then ""
    else if IsXmlSpace(s[0]) then
      (if white then "" else " ") + CollapseSpaces(s[1..], true)
    else [s[0]] + CollapseSpaces(s[1..], false)
  }

  /** Text normalisation as the tree library defines it: leading and trailing white
      space removed, every inner run of white space replaced by one blank. The pass
      above leaves at most one blank at the end, which is dropped. */
  function Normalize(s: string): string
  {
    var collapsed := CollapseSpaces(s, true);
    if collapsed != [] && collapsed[|collapsed| - 1] == ' ' then collapsed[..|collapsed| - 1]
    else collapsed
  }

  /** No white space but blanks, and never two blanks in a row. */
  predicate SingleBlanks(r: string)
  {
    (forall i :: 0 <= i < |r| ==> r[i] == ' ' || !IsXmlSpace(r[i]))
    && (forall i :: 0 < i < |r| && r[i] == ' ' ==> r[i - 1] != ' ')
  }

  /** Text in normal form: single blanks only, and no blank at either end. */
  predicate NormalForm(r: string)
  {
    SingleBlanks(r) && (r != [] ==> r[0] != ' ' && r[|r| - 1] != ' ')
  }

  lemma SingleBlanksCons(head: string, rest: string)
    requires |head| <= 1 && SingleBlanks(head) && SingleBlanks(rest)
    requires head == " " && rest != [] ==> rest[0] != ' '
    ensures SingleBlanks(head + rest)
  {
    var c := head + rest;
    forall i | 0 <= i < |c| ensures c[i] == ' ' || !IsXmlSpace(c[i]) {
      if i >= |head| { assert c[i] == rest[i - |head|]; } else { assert c[i] == head[i]; }
    }
    forall i | 0 < i < |c| && c[i] == ' ' ensures c[i - 1] != ' ' {
      if i > |head| { assert c[i] == rest[i - |head|] && c[i - 1] == rest[i - 1 - |head|]; }
      else { assert c[i] == rest[0] && c[i - 1] == head[0]; }
    }
  }

  /** What the single pass produces: single blanks only, no leading blank when it starts
      in the `white` state, and nothing at all exactly when the text is all white space
      and the pass starts `white`. */
  lemma {:induction false} CollapseSpacesShape(s: string, white: bool)
    ensures SingleBlanks(CollapseSpaces(s, white))
    ensures white && CollapseSpaces(s, white) != [] ==> CollapseSpaces(s, white)[0] != ' '
    ensures white ==> (CollapseSpaces(s, white) == [] <==> AllSpace(s))
    decreases |s|
  {
    if s != [] {
      var rest := CollapseSpaces(s[1..], IsXmlSpace(s[0]));
      CollapseSpacesShape(s[1..], IsXmlSpace(s[0]));
      var head: string := if IsXmlSpace(s[0]) then (if white then "" else " ") else [s[0]];
      assert CollapseSpaces(s, white) == head + rest;
      SingleBlanksCons(head, rest);
      if white && AllSpace(s) {
        assert AllSpace(s[1..]) by {
          forall i | 0 <= i < |s| - 1 ensures IsXmlSpace(s[1..][i]) { assert s[1..][i] == s[i + 1]; }
        }
      }
      if white && !AllSpace(s) && IsXmlSpace(s[0]) {
        assert !AllSpace(s[1..]) by {
          var j :| 0 <= j < |s| && !IsXmlSpace(s[j]);
          assert s[1..][j - 1] == s[j];
        }
      }
    }
  }

  /** A normalised text is empty exactly when the raw text is nothing but white space. */
  lemma NormalizeEmpty(s: string)
    ensures Normalize(s) == [] <==> AllSpace(s)
  {
    CollapseSpacesShape(s, true);
  }

  /** Whatever the raw text, its normalisation is in normal form. */
  lemma NormalizeShape(s: string)
    ensures NormalForm(Normalize(s))
  {
    CollapseSpacesShape(s, true);
    var c := CollapseSpaces(s, true);
    if c != [] && c[|c| - 1] == ' ' {
      var r := c[..|c| - 1];
      assert |c| >= 2;
      assert r[|r| - 1] == c[|c| - 2];
    }
  }

  /** Text already in normal form passes through the single pass unchanged. */
  lemma {:induction false} CollapseKeepsSingleBlanks(s: string, white: bool)
    requires SingleBlanks(s)
    requires white && s != [] ==> s[0] != ' '
    ensures CollapseSpaces(s, white) == s
    decreases |s|
  {
    if s != [] {
      var t := s[1..];
      assert SingleBlanks(t) by {
        forall i | 0 <= i < |t| ensures t[i] == ' ' || !IsXmlSpace(t[i]) { assert t[i] == s[i + 1]; }
        forall i | 0 < i < |t| && t[i] == ' ' ensures t[i - 1] != ' ' { assert t[i] == s[i + 1] && t[i - 1] == s[i]; }
      }
      if s[0] == ' ' {
        assert t != [] ==> t[0] != ' ' by { if t != [] { assert t[0] == s[1]; } }
        CollapseKeepsSingleBlanks(t, true);
      } else {
        CollapseKeepsSingleBlanks(t, false);
      }
      assert s == [s[0]] + t;
    }
  }

  /** Normalisation leaves text in normal form as it is. */
  lemma NormalizeKeepsNormalForm(r: string)
    requires NormalForm(r)
    ensures Normalize(r) == r
  {
    CollapseKeepsSingleBlanks(r, true);
  }

  lemma NormalizeIdempotent(s: string)
    ensures Normalize(Normalize(s)) == Normalize(s)
  {
    NormalizeShape(s);
    NormalizeKeepsNormalForm(Normalize(s));
  }

  /** A trailing blank after text in normal form is trimmed away. */
  lemma NormalizeTrailingBlank(r: string)
    requires NormalForm(r) && r != []
    ensures Normalize(r + " ") == r
  {
    var t := r + " ";
    assert SingleBlanks(t) by {
      forall i | 0 <= i < |t| ensures t[i] == ' ' || !IsXmlSpace(t[i]) {
        if i < |r| { assert t[i] == r[i]; }
      }
      forall i | 0 < i < |t| && t[i] == ' ' ensures t[i - 1] != ' ' {
        if i < |r| { assert t[i] == r[i] && t[i - 1] == r[i - 1]; } else { assert t[i - 1] == r[|r| - 1]; }
      }
    }
    assert t[0] == r[0];
    CollapseKeepsSingleBlanks(t, true);
    assert t[..|t| - 1] == r;
  }
}
