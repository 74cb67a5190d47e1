/**
 * Generation: a walk from a start word through successor draws, stopped by
 * the sentinel or right after an end word; the words joined with spaces; a
 * sentence-ending symbol appended unless the last character already ends
 * the sentence; and several sentences run together. Every random draw is a
 * parameter.
 */
module Generation {
  import opened Wrappers
  import opened Weighted
  import opened Tokens
  import opened Training

  /** The defensive text appended if the sentence-end draw were empty. */
  const FALLBACK: string := "@@@@@@@"

  /**
   * getSentenceEnds: the seven sentence-ending symbols in their fixed order,
   * weighted by their share of messages in ten-thousandths.
   */
  function GetSentenceEnds(): (c: Collection)
    ensures |c| == 7 && Distinct(c) && Positive(c) && Total(c) == 10000
    ensures Values(c) == {".", "!", "?", "!!", "??", "!?", "..."}
    ensures [c[0].value, c[1].value, c[2].value, c[3].value, c[4].value, c[5].value, c[6].value]
         == [".", "!", "?", "!!", "??", "!?", "..."]
  {
    SentenceEndsOrder();
    SentenceEndsTotal();
    SentenceEndsDistinct();
    SentenceEndsValues();
    SENTENCE_ENDS
  }

  const SENTENCE_ENDS: Collection :=
    [Element(".", 4369), Element("!", 1660), Element("?", 2733), Element("!!", 132),
     Element("??", 114), Element("!?", 27), Element("...", 965)]

  lemma SentenceEndsOrder()
    ensures |SENTENCE_ENDS| == 7 && Positive(SENTENCE_ENDS)
    ensures [SENTENCE_ENDS[0].value, SENTENCE_ENDS[1].value, SENTENCE_ENDS[2].value,
             SENTENCE_ENDS[3].value, SENTENCE_ENDS[4].value, SENTENCE_ENDS[5].value,
             SENTENCE_ENDS[6].value]
         == [".", "!", "?", "!!", "??", "!?", "..."]
  {
  }

  /** The seven weights add up to one whole: 10000 ten-thousandths. */
  lemma SentenceEndsTotal()
    ensures Total(SENTENCE_ENDS) == 10000
  {
    var c := SENTENCE_ENDS;
    assert Total(c[6..]) == 965;
    assert Total(c[5..]) == 27 + 965;
    assert Total(c[4..]) == 114 + 27 + 965;
    assert Total(c[3..]) == 132 + 114 + 27 + 965;
    assert Total(c[2..]) == 2733 + 132 + 114 + 27 + 965;
    assert Total(c[1..]) == 1660 + 2733 + 132 + 114 + 27 + 965;
  }

  /** No symbol is listed twice. */
  lemma SentenceEndsDistinct()
    ensures Distinct(SENTENCE_ENDS)
  {
    var c := SENTENCE_ENDS;
    forall i, j | 0 <= i < j < |c|
      ensures c[i].value != c[j].value
    {
      var a, b := c[i].value, c[j].value;
      assert |a| != |b| || a[0] != b[0] || a[|a| - 1] != b[|b| - 1];
    }
  }

  lemma SentenceEndsValues()
    ensures Values(SENTENCE_ENDS) == {".", "!", "?", "!!", "??", "!?", "..."}
  {
    SentenceEndsOrder();
  }

  /** The characters after which a sentence counts as already terminated. */
  predicate IsTerminalChar(ch: char) {
    ch in {'.', '!', '?', '`', '+', '>', '-', '=', '_', ':', '@', '~', ';', '\'', '#',
           '[', ']', '{', '}', '(', ')', '/', '|', '\\'}
  }

  /** The test at Markov.java line 105: a non-empty text whose last character does not terminate it. */
  predicate NeedsEnding(s: string) {
    |s| > 0 && !IsTerminalChar(s[|s| - 1])
  }

  /**
   * The punctuation step: exactly one symbol of the table is appended when
   * the text needs an ending, the text is returned unchanged otherwise, and a
   * non-empty result never needs another ending.
   */
  function Terminate(s: string, r: nat): (out: string)
    ensures NeedsEnding(s) ==> |out| > |s| && out[..|s|] == s && out[|s|..] in Values(GetSentenceEnds())
    ensures !NeedsEnding(s) ==> out == s
    ensures s != "" ==> !NeedsEnding(out)
  {
    if NeedsEnding(s) then
      var sym := Draw(GetSentenceEnds(), r).GetOr(FALLBACK);
      assert (s + sym)[..|s|] == s && (s + sym)[|s|..] == sym;
      assert IsTerminalChar(sym[|sym| - 1]);
      s + sym
    else s
  }

  /**
   * The loop of generate, from the current word: the words appended after it,
   * or None when the draws run out before the walk stops (the source would
   * carry on drawing).
   */
  function Walk(c: Chain, word: string, draws: seq<nat>): Option<seq<string>>
    requires ValidChain(c) && word in c.wordMap
    decreases |draws|
  {
    if draws == [] then None
    else
      PositiveTotal(c.wordMap[word]);
      var next := Draw(c.wordMap[word], draws[0]).GetOr("");
      if next == END_WORD then Some([])
      else if next in c.endWords then Some([next])
      else
        match Walk(c, next, draws[1..])
        case None => None
        case Some(rest) => Some([next] + rest)
  }

  /**
   * A walk the chain allows from `word`: each word is a successor of the one
   * before, never the sentinel, only the last may be an end word, and the
   * walk stops at an end word or where the sentinel is a successor.
   */
  predicate LegalWalk(c: Chain, word: string, ws: seq<string>)
    decreases |ws|
  {
    && word in c.wordMap
    && if ws == [] then END_WORD in Values(c.wordMap[word])
       else
         && ws[0] in Values(c.wordMap[word])
         && ws[0] != END_WORD
         && if ws[0] in c.endWords then |ws| == 1 else LegalWalk(c, ws[0], ws[1..])
  }

  /** The words of a legal walk in a valid chain are words: non-empty and free of whitespace. */
  lemma {:induction false} LegalWalkWords(c: Chain, word: string, ws: seq<string>)
    requires ValidChain(c) && LegalWalk(c, word, ws)
    ensures forall j :: 0 <= j < |ws| ==> IsWord(ws[j]) && ws[j] != END_WORD
    decreases |ws|
  {
    if ws != [] {
      assert IsWord(ws[0]);
      if ws[0] !in c.endWords {
        LegalWalkWords(c, ws[0], ws[1..]);
        forall j | 0 < j < |ws|
          ensures ws[j] == ws[1..][j - 1]
        {
        }
      }
    }
  }

  /** `o` with `p` put in front of its words, if it has any. */
  ghost function Prefixed(p: seq<string>, o: Option<seq<string>>): Option<seq<string>> {
    match o
    case None => None
    case Some(x) => Some(p + x)
  }

  /**
   * One step of the walk: the first draw always yields a successor; the walk
   * stops there when it is the sentinel or an end word, and otherwise goes on
   * from that successor, which is a key.
   */
  lemma WalkStep(c: Chain, word: string, draws: seq<nat>)
    requires ValidChain(c) && word in c.wordMap && draws != []
    ensures Draw(c.wordMap[word], draws[0]).Some?
    ensures var next := Draw(c.wordMap[word], draws[0]).value;
            && next in Values(c.wordMap[word])
            && (next == END_WORD ==> Walk(c, word, draws) == Some([]))
            && (next != END_WORD && next in c.endWords ==> Walk(c, word, draws) == Some([next]))
            && (next != END_WORD && next !in c.endWords ==>
                  next in c.wordMap && Walk(c, word, draws) == Prefixed([next], Walk(c, next, draws[1..])))
  {
    PositiveTotal(c.wordMap[word]);
  }

  /** Every finished walk is one the chain allows, and it used at most one draw per word. */
  lemma {:induction false} WalkSound(c: Chain, word: string, draws: seq<nat>)
    requires ValidChain(c) && word in c.wordMap
    ensures Walk(c, word, draws).Some? ==>
              |Walk(c, word, draws).value| <= |draws| && LegalWalk(c, word, Walk(c, word, draws).value)
    decreases |draws|
  {
    if draws != [] {
      WalkStep(c, word, draws);
      var next := Draw(c.wordMap[word], draws[0]).value;
      if next != END_WORD && next !in c.endWords {
        WalkSound(c, next, draws[1..]);
        match Walk(c, next, draws[1..])
        case None =>
        case Some(rest) =>
          assert ([next] + rest)[1..] == rest;
      }
    }
  }

  /** Conversely, every walk the chain allows is produced by some draws. */
  lemma {:induction false} WalkComplete(c: Chain, word: string, ws: seq<string>) returns (draws: seq<nat>)
    requires ValidChain(c) && word in c.wordMap && LegalWalk(c, word, ws)
    ensures Walk(c, word, draws) == Some(ws)
    decreases |ws|
  {
    var coll := c.wordMap[word];
    var target := if ws == [] then END_WORD else ws[0];
    assert target in Values(coll);
    var k :| 0 <= k < |coll| && coll[k].value == target;
    DrawReaches(coll, k);
    var r := Before(coll, k);
    assert Draw(coll, r) == Some(target);
    if ws == [] {
      draws := [r];
      WalkStep(c, word, draws);
    } else if ws[0] in c.endWords {
      draws := [r];
      assert |ws| == 1;
      assert ws == [ws[0]];
      WalkStep(c, word, draws);
    } else {
      var more := WalkComplete(c, ws[0], ws[1..]);
      draws := [r] + more;
      assert draws[1..] == more;
      WalkStep(c, word, draws);
      assert ws == [ws[0]] + ws[1..];
    }
  }

  /** The random choices of one generate call. */
  datatype Choice = Choice(startNo: nat, draws: seq<nat>, ending: nat)

  /** A start index is what nextInt(|startWords|) can return, whenever it returns. */
  predicate ChoiceFits(c: Chain, ch: Choice) {
    |c.startWords| > 0 ==> ch.startNo < |c.startWords|
  }

  /** The outcome of generate: a sentence, the exception nextInt throws on no start words, or out of draws. */
  datatype Generated = Sentence(text: string) | NoStartWords | Unfinished

  /** generate: the start word and its walk, joined with spaces and terminated. */
  function Generate(c: Chain, ch: Choice): Generated
    requires ValidChain(c) && ChoiceFits(c, ch)
  {
    if |c.startWords| == 0 then NoStartWords
    else
      var start := c.startWords[ch.startNo];
      match Walk(c, start, ch.draws)
      case None => Unfinished
      case Some(rest) => Sentence(Terminate(Join([start] + rest), ch.ending))
  }

  /**
   * A generated sentence is a walk the chain allows from a start word; its
   * text re-tokenises into exactly those words (apart from the appended
   * symbol) and ends in a terminating character.
   */
  lemma GenerateShape(c: Chain, ch: Choice)
    requires ValidChain(c) && ChoiceFits(c, ch)
    ensures Generate(c, ch).NoStartWords? <==> c.startWords == []
    ensures Generate(c, ch).Sentence? ==>
              && !NeedsEnding(Generate(c, ch).text)
              && var start := c.startWords[ch.startNo];
                 var rest := Walk(c, start, ch.draws).value;
                 && LegalWalk(c, start, rest)
                 && Split(Join([start] + rest)) == [start] + rest
                 && Generate(c, ch).text == Terminate(Join([start] + rest), ch.ending)
  {
    if |c.startWords| > 0 {
      var start := c.startWords[ch.startNo];
      WalkSound(c, start, ch.draws);
      match Walk(c, start, ch.draws)
      case None =>
      case Some(rest) =>
        var ws := [start] + rest;
        LegalWalkWords(c, start, rest);
        forall j | 0 <= j < |ws|
          ensures IsWord(ws[j])
        {
          if j > 0 {
            assert ws[j] == rest[j - 1];
          }
        }
        SplitJoin(ws);
        assert Join(ws) != "";
    }
  }

  /**
   * generateRandom's loop over the sentences once generated: each followed
   * by one space; the first failure aborts.
   */
  function Glue(gs: seq<Generated>): Generated {
    if gs == [] then Sentence("")
    else
      match gs[0]
      case Sentence(s) =>
        (match Glue(gs[1..])
         case Sentence(p) => Sentence(s + " " + p)
         case failed => failed)
      case failed => failed
  }

  /** The outcome of each generate call in turn. */
  function Sentences(c: Chain, chs: seq<Choice>): (gs: seq<Generated>)
    requires ValidChain(c) && forall k :: 0 <= k < |chs| ==> ChoiceFits(c, chs[k])
    ensures |gs| == |chs| && forall k :: 0 <= k < |chs| ==> gs[k] == Generate(c, chs[k])
  {
    seq(|chs|, k requires 0 <= k < |chs| => Generate(c, chs[k]))
  }

  /** generateRandom: the sentences of the given choices, glued. */
  function Paragraph(c: Chain, chs: seq<Choice>): Generated
    requires ValidChain(c) && forall k :: 0 <= k < |chs| ==> ChoiceFits(c, chs[k])
  {
    Glue(Sentences(c, chs))
  }

  /**
   * Glued sentences succeed exactly when each one does; the text then starts
   * with the first sentence and a space, and ends in a space.
   */
  lemma {:induction false} GlueShape(gs: seq<Generated>)
    ensures Glue(gs).Sentence? <==> forall k :: 0 <= k < |gs| ==> gs[k].Sentence?
    ensures Glue(gs).Sentence? && gs != [] ==>
              var p := Glue(gs).text;
              var first := gs[0].text;
              && |p| > |first|
              && p[..|first| + 1] == first + " "
              && p[|p| - 1] == ' '
    decreases |gs|
  {
    if gs != [] {
      GlueShape(gs[1..]);
      if forall k :: 0 <= k < |gs| ==> gs[k].Sentence? {
        forall k | 0 <= k < |gs| - 1
          ensures gs[1..][k].Sentence?
        {
          assert gs[1..][k] == gs[k + 1];
        }
      } else {
        var k :| 0 <= k < |gs| && !gs[k].Sentence?;
        if k > 0 {
          assert gs[1..][k - 1] == gs[k];
        }
      }
      if Glue(gs).Sentence? {
        var first := gs[0].text;
        var p := Glue(gs[1..]).text;
        var whole := first + " " + p;
        assert whole[..|first| + 1] == first + " ";
        if gs[1..] == [] {
          assert p == "";
        }
      }
    }
  }

  /**
   * Several sentences succeed together exactly when each one does; the text
   * then starts with the first sentence and a space, and ends in a space.
   */
  lemma ParagraphShape(c: Chain, chs: seq<Choice>)
    requires ValidChain(c) && forall k :: 0 <= k < |chs| ==> ChoiceFits(c, chs[k])
    ensures Paragraph(c, chs).Sentence? <==> forall k :: 0 <= k < |chs| ==> Generate(c, chs[k]).Sentence?
    ensures Paragraph(c, chs).Sentence? && chs != [] ==>
              var p := Paragraph(c, chs).text;
              var first := Generate(c, chs[0]).text;
              && |p| > |first|
              && p[..|first| + 1] == first + " "
              && p[|p| - 1] == ' '
  {
    GlueShape(Sentences(c, chs));
  }
}
