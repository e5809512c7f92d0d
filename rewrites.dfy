/** The two fixed rewrites applied around the translation: the double-newline collapse
    on the finished output, and the regular-expression rename of the output file. Both
    scan left to right and replace non-overlapping matches in a single pass. */
module Rewrites {
  import opened Strings

  /** `k` newline characters. */
  function Newlines(k: nat): (r: string)
    ensures |r| == k
    ensures forall i :: 0 <= i < k ==> r[i] == '\n'
  {
    if k == 0 then "" else "\n" + Newlines(k - 1)
  }

  /** Every pair of consecutive newlines, taken left to right without overlap, becomes
      one newline; the result is not scanned again. */
  function CollapseNewlines(s: string): (r: string)
    ensures |r| <= |s|
  {
    if |s| >= 2 && s[0] == '\n' && s[1] == '\n' then "\n" + CollapseNewlines(s[2..])
    else if s == [] then ""
    else [s[0]] + CollapseNewlines(s[1..])
  }

  /** `s` without its newline characters. */
  function WithoutNewlines(s: string): (r: string)
    ensures forall i :: 0 <= i < |r| ==> r[i] != '\n'
  {
    if s == [] then ""
    else (if s[0] == '\n' then "" else [s[0]]) + WithoutNewlines(s[1..])
  }

  /** The collapse touches newlines only: every other character survives, in order. */
  lemma {:induction false} CollapseKeepsOtherCharacters(s: string)
    ensures WithoutNewlines(CollapseNewlines(s)) == WithoutNewlines(s)
    decreases |s|
  {
    if |s| >= 2 && s[0] == '\n' && s[1] == '\n' {
      CollapseKeepsOtherCharacters(s[2..]);
      var rest := CollapseNewlines(s[2..]);
      assert ("\n" + rest)[1..] == rest;
      assert s[1..][1..] == s[2..];
    } else if s != [] {
      CollapseKeepsOtherCharacters(s[1..]);
      assert ([s[0]] + CollapseNewlines(s[1..]))[1..] == CollapseNewlines(s[1..]);
    }
  }

  /** One more newline at the end of a run. */
  lemma NewlinesSnoc(n: nat)
    ensures Newlines(n + 1) == Newlines(n) + "\n"
  {
    var l, r := Newlines(n + 1), Newlines(n) + "\n";
    assert |l| == |r|;
    forall i | 0 <= i < |l| ensures l[i] == r[i] {
      if i < n { assert r[i] == Newlines(n)[i]; }
    }
  }

  /** An even run of `2 * m` newlines becomes `m` newlines, whatever follows it: the
      scan takes the pairs from the left and carries on after the run. */
  lemma {:induction false} CollapseEvenRun(m: nat, rest: string)
    ensures CollapseNewlines(Newlines(2 * m) + rest) == Newlines(m) + CollapseNewlines(rest)
    decreases m
  {
    if m == 0 {
      assert Newlines(0) + rest == rest;
    } else {
      var shorter := Newlines(2 * m - 2);
      assert Newlines(2 * m) + rest == "\n" + ("\n" + (shorter + rest)) by {
        assert Newlines(2 * m) == "\n" + ("\n" + shorter);
        Assoc("\n", "\n" + shorter, rest);
        Assoc("\n", shorter, rest);
      }
      CollapsePair(shorter + rest);
      assert 2 * m - 2 == 2 * (m - 1);
      CollapseEvenRun(m - 1, rest);
      Assoc("\n", Newlines(m - 1), CollapseNewlines(rest));
    }
  }

  /** A run of `k` newlines followed by text that does not start with a newline becomes
      a run of ceil(k/2) newlines, and the text is collapsed on its own: runs are
      collapsed independently of each other. */
  lemma CollapseRunThen(k: nat, rest: string)
    requires rest == [] || rest[0] != '\n'
    ensures CollapseNewlines(Newlines(k) + rest) == Newlines((k + 1) / 2) + CollapseNewlines(rest)
  {
    var m := k / 2;
    if k % 2 == 0 {
      assert k == 2 * m && (k + 1) / 2 == m;
      CollapseEvenRun(m, rest);
    } else {
      assert k == 2 * m + 1 && (k + 1) / 2 == m + 1;
      assert Newlines(k) + rest == Newlines(2 * m) + ("\n" + rest) by {
        NewlinesSnoc(2 * m);
        Assoc(Newlines(2 * m), "\n", rest);
      }
      CollapseEvenRun(m, "\n" + rest);
      CollapseLoneNewline(rest);
      NewlinesSnoc(m);
      Assoc(Newlines(m), "\n", CollapseNewlines(rest));
    }
  }

  /** A run of `k` newlines on its own becomes a run of ceil(k/2) newlines. */
  lemma CollapseRun(k: nat)
    ensures CollapseNewlines(Newlines(k)) == Newlines((k + 1) / 2)
  {
    CollapseRunThen(k, "");
    assert Newlines(k) + "" == Newlines(k);
    assert Newlines((k + 1) / 2) + "" == Newlines((k + 1) / 2);
  }

  /** Two newlines in a row somewhere in `s`. */
  ghost predicate HasDoubleNewline(s: string)
  {
    exists i :: 0 <= i < |s| - 1 && s[i] == '\n' && s[i + 1] == '\n'
  }

  /** The collapse changes a string exactly when the string holds two newlines in a
      row; when it does, the string gets strictly shorter. */
  lemma {:induction false} CollapseChangesIff(s: string)
    ensures !HasDoubleNewline(s) ==> CollapseNewlines(s) == s
    ensures HasDoubleNewline(s) ==> |CollapseNewlines(s)| < |s|
    decreases |s|
  {
    if |s| >= 2 && s[0] == '\n' && s[1] == '\n' {
      assert HasDoubleNewline(s) by { assert s[0] == '\n' && s[1] == '\n'; }
    } else if s != [] {
      var t := s[1..];
      CollapseChangesIff(t);
      if HasDoubleNewline(s) {
        var i :| 0 <= i < |s| - 1 && s[i] == '\n' && s[i + 1] == '\n';
        assert i >= 1;
        assert t[i - 1] == s[i] && t[i] == s[i + 1];
      } else {
        assert !HasDoubleNewline(t) by {
          forall i | 0 <= i < |t| - 1 ensures !(t[i] == '\n' && t[i + 1] == '\n') {
            assert t[i] == s[i + 1] && t[i + 1] == s[i + 2];
          }
        }
      }
    }
  }

  predicate NoNewline(s: string)
  {
    forall i :: 0 <= i < |s| ==> s[i] != '\n'
  }

  /** A character other than a newline is kept, and the scan goes on after it. */
  lemma CollapseKeepsChar(c: char, rest: string)
    requires c != '\n'
    ensures CollapseNewlines([c] + rest) == [c] + CollapseNewlines(rest)
  {
    assert ([c] + rest)[1..] == rest;
  }

  /** Text without newlines passes through the collapse unchanged, whatever follows it. */
  lemma {:induction false} CollapseThroughText(a: string, b: string)
    requires NoNewline(a)
    ensures CollapseNewlines(a + b) == a + CollapseNewlines(b)
    decreases |a|
  {
    if a == [] {
      assert a + b == b;
    } else {
      var tail := a[1..];
      assert NoNewline(tail) by {
        forall i | 0 <= i < |tail| ensures tail[i] != '\n' { assert tail[i] == a[i + 1]; }
      }
      assert a == [a[0]] + tail;
      assert a + b == [a[0]] + (tail + b) by { Assoc([a[0]], tail, b); }
      CollapseKeepsChar(a[0], tail + b);
      CollapseThroughText(tail, b);
      Assoc([a[0]], tail, CollapseNewlines(b));
    }
  }

  /** Text without newlines is left as it is. */
  lemma CollapseKeepsText(a: string)
    requires NoNewline(a)
    ensures CollapseNewlines(a) == a
  {
    CollapseThroughText(a, "");
    assert a + "" == a;
  }

  /** A lone newline, not followed by another, is kept. */
  lemma CollapseLoneNewline(b: string)
    requires b == [] || b[0] != '\n'
    ensures CollapseNewlines("\n" + b) == "\n" + CollapseNewlines(b)
  {
    assert ("\n" + b)[1..] == b;
  }

  /** A pair of newlines becomes one, and the scan goes on after the pair. */
  lemma CollapsePair(b: string)
    ensures CollapseNewlines("\n" + ("\n" + b)) == "\n" + CollapseNewlines(b)
  {
    assert ("\n" + ("\n" + b))[2..] == b;
  }

  /** A heading line followed by a line break: the blank line between them goes, and
      the rest is collapsed on its own. */
  lemma CollapseAfterLine(line: string, body: string)
    requires NoNewline(line) && line != []
    requires body == [] || body[0] != '\n'
    ensures CollapseNewlines("\n" + line + "\n" + ("\n" + body))
            == "\n" + line + "\n" + CollapseNewlines(body)
  {
    var t2 := "\n" + ("\n" + body);
    assert CollapseNewlines(line + t2) == line + ("\n" + CollapseNewlines(body)) by {
      CollapsePair(body);
      CollapseThroughText(line, t2);
    }
    assert CollapseNewlines("\n" + (line + t2)) == "\n" + CollapseNewlines(line + t2) by {
      assert (line + t2)[0] == line[0];
      CollapseLoneNewline(line + t2);
    }
    assert "\n" + line + "\n" + ("\n" + body) == "\n" + (line + t2) by {
      Assoc("\n" + line, "\n", "\n" + body);
      Assoc("\n", line, t2);
    }
    assert "\n" + (line + ("\n" + CollapseNewlines(body))) == "\n" + line + "\n" + CollapseNewlines(body) by {
      Assoc("\n" + line, "\n", CollapseNewlines(body));
      Assoc("\n", line, "\n" + CollapseNewlines(body));
    }
  }

  /** The collapse is not idempotent: three newlines become two, and only a second
      pass brings them down to one. */
  lemma CollapseNotIdempotent()
    ensures CollapseNewlines("\n\n\n") == "\n\n"
    ensures CollapseNewlines(CollapseNewlines("\n\n\n")) == "\n"
  {
    CollapseRun(3);
    CollapseRun(2);
    assert Newlines(3) == "\n\n\n";
    assert Newlines(2) == "\n\n";
    assert Newlines(1) == "\n";
  }

  /** What the regular-expression dot matches: any character but a line terminator. */
  predicate MatchesDot(c: char)
  {
    c != '\n' && c != '\r' && c != '\U{0085}' && c != '\U{2028}' && c != '\U{2029}'
  }

  /** The pattern ".xml" (any character, then "xml") matches at position `i`. */
  predicate MatchAt(s: string, i: int)
  {
    0 <= i && i + 4 <= |s| && MatchesDot(s[i]) && s[i + 1] == 'x' && s[i + 2] == 'm' && s[i + 3] == 'l'
  }

  /** The pattern matches somewhere in `s`. */
  ghost predicate HasMatch(s: string)
  {
    exists i :: MatchAt(s, i)
  }

  /** The output file name: every match of ".xml", left to right and without overlap,
      is replaced by ".biqui". */
  function RenameToWiki(s: string): (r: string)
    ensures |r| >= |s|
  {
    if MatchAt(s, 0) then ".biqui" + RenameToWiki(s[4..])
    else if s == [] then ""
    else [s[0]] + RenameToWiki(s[1..])
  }

  /** The rename changes a name exactly when the pattern matches somewhere in it; it
      then makes the name strictly longer. */
  lemma {:induction false} RenameChangesIff(s: string)
    ensures !HasMatch(s) ==> RenameToWiki(s) == s
    ensures HasMatch(s) ==> |RenameToWiki(s)| > |s|
    decreases |s|
  {
    if MatchAt(s, 0) {
      assert HasMatch(s);
    } else if s != [] {
      var t := s[1..];
      RenameChangesIff(t);
      if HasMatch(s) {
        var i :| MatchAt(s, i);
        assert i >= 1;
        assert MatchAt(t, i - 1);
      } else {
        assert !HasMatch(t) by {
          forall i ensures !MatchAt(t, i) {
            assert !MatchAt(s, i + 1);
            assert MatchAt(t, i) ==> MatchAt(s, i + 1);
          }
        }
      }
    }
  }

  /** A trailing ".xml" is always replaced by ".biqui", whatever comes before it: no
      match can run from the stem into the extension, since its dot is not part of
      "xml". */
  lemma {:induction false} RenameXmlExtension(stem: string)
    ensures RenameToWiki(stem + ".xml") == RenameToWiki(stem) + ".biqui"
    decreases |stem|
  {
    var s := stem + ".xml";
    if stem == [] {
      assert MatchAt(s, 0);
      assert s[4..] == [];
      assert s == ".xml";
    } else if MatchAt(stem, 0) {
      assert MatchAt(s, 0);
      assert s[4..] == stem[4..] + ".xml";
      RenameXmlExtension(stem[4..]);
      Assoc(".biqui", RenameToWiki(stem[4..]), ".biqui");
    } else {
      assert !MatchAt(s, 0) by {
        if |stem| < 4 { assert s[|stem|] == '.'; }
      }
      assert s[1..] == stem[1..] + ".xml";
      RenameXmlExtension(stem[1..]);
      Assoc([stem[0]], RenameToWiki(stem[1..]), ".biqui");
    }
  }

  /** The usual case: the extension is replaced. */
  lemma RenameExtensionExample()
    ensures RenameToWiki("doc.xml") == "doc.biqui"
  {
    assert !HasMatch("doc") by {
      forall i ensures !MatchAt("doc", i) { }
    }
    RenameChangesIff("doc");
    RenameXmlExtension("doc");
    assert "doc" + ".xml" == "doc.xml";
  }

  /** Every match is replaced, not only a trailing extension. */
  lemma RenameEveryMatchExample()
    ensures RenameToWiki("a.xml.xml") == "a.biqui.biqui"
  {
    assert !MatchAt("a.xml.xml", 0);
    assert "a.xml.xml"[1..] == ".xml.xml";
    assert MatchAt(".xml.xml", 0);
    assert ".xml.xml"[4..] == ".xml";
    assert ".xml"[4..] == "";
  }

  /** The dot is a pattern, not a literal: it takes the character before "xml". */
  lemma RenameDotExample()
    ensures RenameToWiki("fooxml") == "fo.biqui"
  {
    assert !MatchAt("fooxml", 0);
    assert "fooxml"[1..] == "ooxml";
    assert !MatchAt("ooxml", 0);
    assert "ooxml"[1..] == "oxml";
    assert MatchAt("oxml", 0);
    assert "oxml"[4..] == "";
  }
}
