/**
 * Tokenisation of a training message and the reverse step used when a
 * sentence is assembled: the message is cut at maximal runs of whitespace,
 * an input that starts with whitespace keeps an empty first token, trailing
 * empty tokens are dropped, and an input with no whitespace at all is its
 * own single token. Sentence words are joined back with single spaces.
 */
module Tokens {

  /** The whitespace characters the tokeniser cuts at (space, tab, line feed, vertical tab, form feed, carriage return). */
  predicate IsSpace(ch: char) {
    ch == ' ' || ch == '\t' || ch == '\n' || ch == '\U{B}' || ch == '\U{C}' || ch == '\r'
  }

  /** A string without whitespace; every token is one. */
  predicate NoSpace(w: string) {
    forall k :: 0 <= k < |w| ==> !IsSpace(w[k])
  }

  /** A word as the chain stores it: a non-empty token. */
  predicate IsWord(w: string) {
    w != "" && NoSpace(w)
  }

  /** `s` without its leading run of whitespace. */
  function DropSpaces(s: string): (r: string)
    ensures |r| <= |s| && r == s[|s| - |r|..]
    ensures r == [] || !IsSpace(r[0])
    ensures s != [] && IsSpace(s[0]) ==> |r| < |s|
    ensures s == [] || !IsSpace(s[0]) ==> r == s
  {
    if s != [] && IsSpace(s[0]) then DropSpaces(s[1..]) else s
  }

  /** The pieces between maximal runs of whitespace, empty first and last pieces included. */
  function Cut(s: string): (p: seq<string>)
    ensures |p| >= 1
    decreases |s|
  {
    if s == [] then [""]
    else if IsSpace(s[0]) then [""] + Cut(DropSpaces(s))
    else
      var rest := Cut(s[1..]);
      [[s[0]] + rest[0]] + rest[1..]
  }

  /** `p` without its trailing empty strings. */
  function DropTrailingEmpty(p: seq<string>): (r: seq<string>)
    ensures |r| <= |p| && r == p[..|r|]
    ensures r == [] || r[|r| - 1] != ""
    ensures p != [] && p[|p| - 1] != "" ==> r == p
  {
    if p == [] then []
    else if p[|p| - 1] == "" then DropTrailingEmpty(p[..|p| - 1])
    else p
  }

  /** The tokens of a training message (the `split` at Markov.java line 128). */
  function Split(s: string): seq<string> {
    if s == "" then [""] else DropTrailingEmpty(Cut(s))
  }

  /**
   * The pieces of a cut contain no whitespace; only the first (when the input
   * is empty or starts with whitespace) and the last can be empty.
   */
  predicate CutOk(s: string, p: seq<string>) {
    && |p| >= 1
    && (forall j :: 0 <= j < |p| ==> NoSpace(p[j]))
    && (forall j :: 0 < j < |p| - 1 ==> p[j] != "")
    && (p[0] == "" <==> s == "" || IsSpace(s[0]))
  }

  lemma {:induction false} CutShape(s: string)
    ensures forall j :: 0 <= j < |Cut(s)| ==> NoSpace(Cut(s)[j])
    ensures forall j :: 0 < j < |Cut(s)| - 1 ==> Cut(s)[j] != ""
    ensures Cut(s)[0] == "" <==> s == "" || IsSpace(s[0])
    decreases |s|
  {
    if s == [] {
    } else if IsSpace(s[0]) {
      CutShape(DropSpaces(s));
      CutOkSpace(s);
    } else {
      CutShape(s[1..]);
      CutOkChar(s);
    }
    assert CutOk(s, Cut(s));
  }

  /** The step of CutShape for an input that starts with whitespace. */
  lemma CutOkSpace(s: string)
    requires s != [] && IsSpace(s[0]) && CutOk(DropSpaces(s), Cut(DropSpaces(s)))
    ensures CutOk(s, Cut(s))
  {
    var d := DropSpaces(s);
    var q := Cut(d);
    assert Cut(s) == [""] + q;
    if |q| >= 2 {
      assert d != "";
    }
    PrependEmpty(q);
  }

  /** Putting an empty piece in front of pieces whose first is non-empty (when it is not also the last). */
  lemma PrependEmpty(q: seq<string>)
    requires |q| >= 1
    requires forall j :: 0 <= j < |q| ==> NoSpace(q[j])
    requires forall j :: 0 < j < |q| - 1 ==> q[j] != ""
    requires |q| >= 2 ==> q[0] != ""
    ensures forall j :: 0 <= j < |[""] + q| ==> NoSpace(([""] + q)[j])
    ensures forall j :: 0 < j < |[""] + q| - 1 ==> ([""] + q)[j] != ""
  {
    var p := [""] + q;
    forall j | 0 < j < |p|
      ensures p[j] == q[j - 1]
    {
    }
  }

  /** The step of CutShape for an input that starts with another character. */
  lemma CutOkChar(s: string)
    requires s != [] && !IsSpace(s[0]) && CutOk(s[1..], Cut(s[1..]))
    ensures CutOk(s, Cut(s))
  {
    var rest := Cut(s[1..]);
    var p := Cut(s);
    assert p == [[s[0]] + rest[0]] + rest[1..];
    assert NoSpace(p[0]) by {
      assert NoSpace(rest[0]);
      forall k | 0 <= k < |p[0]|
        ensures !IsSpace(p[0][k])
      {
        if k > 0 {
          assert p[0][k] == rest[0][k - 1];
        }
      }
    }
    forall j | 0 < j < |p|
      ensures p[j] == rest[j]
    {
    }
  }

  /**
   * Every token is free of whitespace; only token 0 can be empty, and it is
   * empty exactly when the message starts with whitespace (or is itself empty).
   */
  lemma SplitShape(s: string)
    ensures forall j :: 0 <= j < |Split(s)| ==> NoSpace(Split(s)[j])
    ensures forall j :: 0 < j < |Split(s)| ==> IsWord(Split(s)[j])
    ensures s != "" && IsSpace(s[0]) ==> Split(s) == [] || Split(s)[0] == ""
    ensures s != "" && !IsSpace(s[0]) ==> |Split(s)| >= 1 && Split(s)[0] != ""
  {
    if s != "" {
      CutShape(s);
      TrimShape(s, Cut(s));
    }
  }

  /** Dropping the trailing empty pieces of a cut leaves only non-empty pieces after the first. */
  lemma TrimShape(s: string, p: seq<string>)
    requires CutOk(s, p)
    ensures var t := DropTrailingEmpty(p);
            && (forall j :: 0 <= j < |t| ==> NoSpace(t[j]))
            && (forall j :: 0 < j < |t| ==> t[j] != "")
            && (t != [] ==> t[0] == p[0])
            && (p[0] != "" ==> t != [])
  {
    var t := DropTrailingEmpty(p);
    forall j | 0 <= j < |t|
      ensures t[j] == p[j]
    {
    }
  }

  /** String.join(" ", words): the words separated by single spaces. */
  function Join(ws: seq<string>): string {
    if ws == [] then ""
    else if |ws| == 1 then ws[0]
    else ws[0] + " " + Join(ws[1..])
  }

  lemma CutCons(a: char, u: string)
    requires !IsSpace(a)
    ensures Cut([a] + u) == [[a] + Cut(u)[0]] + Cut(u)[1..]
  {
    assert ([a] + u)[1..] == u;
  }

  lemma {:induction false} CutPrefix(w: string, t: string)
    requires NoSpace(w)
    ensures Cut(w + t) == [w + Cut(t)[0]] + Cut(t)[1..]
    decreases |w|
  {
    if w == [] {
      var p := Cut(t);
      assert w + t == t && w + p[0] == p[0];
      assert p == [p[0]] + p[1..];
    } else {
      assert NoSpace(w[1..]) by {
        forall k | 0 <= k < |w| - 1
          ensures !IsSpace(w[1..][k])
        {
          assert w[1..][k] == w[k + 1];
        }
      }
      CutPrefix(w[1..], t);
      CutPrefixStep(w[0], w[1..], t, Cut(t));
      assert [w[0]] + w[1..] == w;
    }
  }

  /** One character more in front of a whitespace-free prefix joins the first piece. */
  lemma CutPrefixStep(a: char, v: string, t: string, p: seq<string>)
    requires !IsSpace(a) && |p| >= 1
    requires Cut(v + t) == [v + p[0]] + p[1..]
    ensures Cut([a] + v + t) == [[a] + v + p[0]] + p[1..]
  {
    var u := v + t;
    assert [a] + v + t == [a] + u;
    CutCons(a, u);
    assert [a] + (v + p[0]) == [a] + v + p[0];
  }

  lemma {:induction false} CutJoin(ws: seq<string>)
    requires |ws| >= 1
    requires forall j :: 0 <= j < |ws| ==> IsWord(ws[j])
    ensures Cut(Join(ws)) == ws
    decreases |ws|
  {
    if |ws| == 1 {
      CutPrefix(ws[0], "");
      assert ws[0] + "" == ws[0];
    } else {
      var rest := Join(ws[1..]);
      CutJoin(ws[1..]);
      assert rest[0] == ws[1][0] by {
        JoinStarts(ws[1..]);
      }
      assert DropSpaces(" " + rest) == rest by {
        assert (" " + rest)[1..] == rest;
      }
      assert Cut(" " + rest) == [""] + ws[1..];
      CutPrefix(ws[0], " " + rest);
      assert Join(ws) == ws[0] + (" " + rest);
      assert ws[0] + "" == ws[0];
      assert ws == [ws[0]] + ws[1..];
    }
  }

  lemma JoinStarts(ws: seq<string>)
    requires |ws| >= 1 && ws[0] != ""
    ensures |Join(ws)| > 0 && Join(ws)[0] == ws[0][0]
  {
  }

  /**
   * Re-tokenising a sentence assembled from words gives back those words:
   * `Join` is a right inverse of `Split` on non-empty sequences of words.
   */
  lemma SplitJoin(ws: seq<string>)
    requires |ws| >= 1
    requires forall j :: 0 <= j < |ws| ==> IsWord(ws[j])
    ensures Split(Join(ws)) == ws
  {
    CutJoin(ws);
    JoinStarts(ws);
  }

  /**
   * Reference for what the tokens contain: `s` with every maximal run of
   * whitespace replaced by one space.
   */
  function Collapse(s: string): string
    decreases |s|
  {
    if s == [] then []
    else if IsSpace(s[0]) then " " + Collapse(DropSpaces(s))
    else [s[0]] + Collapse(s[1..])
  }

  /** `x` without one trailing space. */
  function TrimEnd(x: string): string {
    if x != [] && x[|x| - 1] == ' ' then x[..|x| - 1] else x
  }

  /** The non-whitespace characters of `s`, in order. */
  function Letters(s: string): string {
    if s == [] then []
    else (if IsSpace(s[0]) then [] else [s[0]]) + Letters(s[1..])
  }

  /** Collapsing whitespace keeps every other character, in order. */
  lemma {:induction false} CollapseLetters(s: string)
    ensures Letters(Collapse(s)) == Letters(s)
    decreases |s|
  {
    if s == [] {
    } else if IsSpace(s[0]) {
      var d := DropSpaces(s);
      CollapseLetters(d);
      LettersDrop(s);
      assert (" " + Collapse(d))[1..] == Collapse(d);
    } else {
      CollapseLetters(s[1..]);
      assert ([s[0]] + Collapse(s[1..]))[1..] == Collapse(s[1..]);
    }
  }

  /** Leading whitespace holds no letters. */
  lemma {:induction false} LettersDrop(s: string)
    ensures Letters(DropSpaces(s)) == Letters(s)
    decreases |s|
  {
    if s != [] && IsSpace(s[0]) {
      LettersDrop(s[1..]);
    }
  }

  /** Joining a non-empty word list with one more word. */
  lemma {:induction false} JoinSnoc(ws: seq<string>, w: string)
    requires ws != []
    ensures Join(ws + [w]) == Join(ws) + " " + w
    decreases |ws|
  {
    if |ws| == 1 {
      assert ws + [w] == [ws[0], w];
      assert [ws[0], w][1..] == [w];
    } else {
      JoinSnoc(ws[1..], w);
      assert (ws + [w])[1..] == ws[1..] + [w];
      assert (ws + [w])[0] == ws[0];
    }
  }

  /** Joining a word in front of a non-empty word list. */
  lemma {:induction false} JoinCons(w: string, ws: seq<string>)
    requires ws != []
    ensures Join([w] + ws) == w + " " + Join(ws)
  {
    assert ([w] + ws)[1..] == ws;
  }

  /** A character in front of the first piece is a character in front of the join. */
  lemma {:induction false} JoinConsHead(a: char, r: seq<string>)
    requires |r| >= 1
    ensures Join([[a] + r[0]] + r[1..]) == [a] + Join(r)
  {
    var h := [a] + r[0];
    if |r| == 1 {
      assert [h] + r[1..] == [h];
    } else {
      var t := Join(r[1..]);
      JoinCons(h, r[1..]);
      JoinCons(r[0], r[1..]);
      assert [r[0]] + r[1..] == r;
      assert h + " " + t == [a] + (r[0] + " " + t);
    }
  }

  /** The pieces of a cut, joined with single spaces, are the collapsed input. */
  lemma {:induction false} JoinCut(s: string)
    ensures Join(Cut(s)) == Collapse(s)
    decreases |s|
  {
    if s == [] {
    } else if IsSpace(s[0]) {
      var d := DropSpaces(s);
      JoinCut(d);
      var q := Cut(d);
      assert Cut(s) == [""] + q;
      assert ([""] + q)[1..] == q;
      assert "" + " " + Join(q) == " " + Join(q);
    } else {
      JoinCut(s[1..]);
      JoinConsHead(s[0], Cut(s[1..]));
    }
  }

  /**
   * The content of the tokens: joined with single spaces they give `s` with
   * each whitespace run collapsed to one space and a trailing run dropped.
   * With SplitShape (no whitespace inside a token, none empty after the
   * first) and CollapseLetters, every token is a maximal whitespace-free run
   * of `s`, in order, every non-whitespace character lies in one, and a
   * leading empty token stands for leading whitespace.
   */
  lemma SplitContent(s: string)
    ensures Join(Split(s)) == TrimEnd(Collapse(s))
    ensures Letters(Join(Split(s))) == Letters(s)
  {
    CollapseLetters(s);
    if s != "" {
      CutShape(s);
      JoinCut(s);
      JoinTrim(Cut(s));
      LettersTrim(Collapse(s));
    }
  }

  /** Dropping trailing empty pieces drops the one trailing space they leave in the join. */
  lemma {:induction false} JoinTrim(p: seq<string>)
    requires |p| >= 1
    requires forall j :: 0 <= j < |p| ==> NoSpace(p[j])
    requires forall j :: 0 < j < |p| - 1 ==> p[j] != ""
    ensures Join(DropTrailingEmpty(p)) == TrimEnd(Join(p))
  {
    var w := p[|p| - 1];
    if |p| == 1 {
      assert DropTrailingEmpty(p) == if w == "" then DropTrailingEmpty([]) else p;
    } else if w != "" {
      JoinEndsWith(p);
    } else {
      var init := p[..|p| - 1];
      assert p == init + [w];
      JoinSnoc(init, w);
      TrimSpace(Join(init));
      DropLastEmpty(p);
    }
  }

  /** A trailing empty piece is dropped, and at most one more (when it is the only other one). */
  lemma {:induction false} DropLastEmpty(p: seq<string>)
    requires |p| >= 2 && p[|p| - 1] == ""
    requires forall j :: 0 < j < |p| - 1 ==> p[j] != ""
    ensures DropTrailingEmpty(p) == if p[|p| - 2] == "" then [] else p[..|p| - 1]
  {
    var init := p[..|p| - 1];
    assert DropTrailingEmpty(p) == DropTrailingEmpty(init);
    if init[|init| - 1] == "" {
      assert |init| == 1;
      assert DropTrailingEmpty(init) == DropTrailingEmpty([]);
    }
  }

  lemma TrimSpace(x: string)
    ensures TrimEnd(x + " ") == x
  {
    assert (x + " ")[..|x|] == x;
  }

  /** A join whose last piece is a non-empty word does not end in a space. */
  lemma {:induction false} JoinEndsWith(p: seq<string>)
    requires |p| >= 2 && p[|p| - 1] != "" && NoSpace(p[|p| - 1])
    ensures TrimEnd(Join(p)) == Join(p)
  {
    var w := p[|p| - 1];
    var init := p[..|p| - 1];
    assert p == init + [w];
    JoinSnoc(init, w);
    assert Join(p)[|Join(p)| - 1] == w[|w| - 1];
  }

  /** Dropping a trailing space drops no letter. */
  lemma LettersTrim(x: string)
    ensures Letters(TrimEnd(x)) == Letters(x)
  {
    if x != [] && x[|x| - 1] == ' ' {
      LettersAppend(x[..|x| - 1], " ");
      assert x[..|x| - 1] + " " == x;
    }
  }

  lemma {:induction false} LettersAppend(x: string, y: string)
    ensures Letters(x + y) == Letters(x) + Letters(y)
    decreases |x|
  {
    if x != [] {
      LettersAppend(x[1..], y);
      assert (x + y)[1..] == x[1..] + y;
    } else {
      assert x + y == y;
    }
  }

  /** The stops a message-ending word may end with, in the source's order. */
  const EndStops: seq<string> := ["?", "!", "."]

  /** String.endsWith. */
  predicate EndsWith(s: string, suffix: string) {
    |suffix| <= |s| && s[|s| - |suffix|..] == suffix
  }

  /** isEndWord: whether the word ends with one of the stops. */
  predicate IsEndWord(word: string) {
    exists k :: 0 <= k < |EndStops| && EndsWith(word, EndStops[k])
  }

  /** A word is an end word exactly when its last character is '.', '!' or '?'. */
  lemma EndWordLastChar(word: string)
    ensures IsEndWord(word) <==> word != "" && word[|word| - 1] in {'.', '!', '?'}
  {
    if word != "" {
      var c := word[|word| - 1];
      assert word[|word| - 1..] == [c];
      if c == '?' { assert EndsWith(word, EndStops[0]); }
      if c == '!' { assert EndsWith(word, EndStops[1]); }
      if c == '.' { assert EndsWith(word, EndStops[2]); }
    }
  }
}
