/**
 * The Markov class: three fields updated in place while messages are
 * parsed, and read-only generation methods. Every method is proved against
 * the specification functions of the Training and Generation modules.
 */
module MarkovModel {
  import opened Wrappers
  import opened Weighted
  import opened Tokens
  import opened Training
  import opened Generation

  /** `g` with `sb` put in front of its text, if it is a sentence. */
  ghost function AfterText(sb: string, g: Generated): Generated {
    match g
    case Sentence(p) => Sentence(sb + p)
    case other => other
  }

  lemma PrefixedNil(o: Option<seq<string>>)
    ensures Prefixed([], o) == o
  {
    match o
    case None =>
    case Some(x) => assert [] + x == x;
  }

  lemma PrefixedSnoc(p: seq<string>, n: string, o: Option<seq<string>>)
    ensures Prefixed(p, Prefixed([n], o)) == Prefixed(p + [n], o)
  {
    match o
    case None =>
    case Some(x) => assert p + ([n] + x) == (p + [n]) + x;
  }

  /**
   * One pass of generate's loop: the drawn word either ends the walk (the
   * sentinel adds nothing, an end word adds itself) or joins the words so far
   * and the walk goes on from it.
   */
  lemma WalkAdvance(c: Chain, whole: Option<seq<string>>, walked: seq<string>, prev: string, rest: seq<nat>)
    requires ValidChain(c) && prev in c.wordMap && rest != []
    requires whole == Prefixed(walked, Walk(c, prev, rest))
    ensures var next := Draw(c.wordMap[prev], rest[0]).GetOr("");
            && (next == END_WORD ==> whole == Some(walked))
            && (next != END_WORD && next in c.endWords ==> whole == Some(walked + [next]))
            && (next != END_WORD && next !in c.endWords ==>
                  next in c.wordMap && whole == Prefixed(walked + [next], Walk(c, next, rest[1..])))
  {
    WalkStep(c, prev, rest);
    var next := Draw(c.wordMap[prev], rest[0]).value;
    if next == END_WORD {
      assert walked + [] == walked;
    } else if next !in c.endWords {
      PrefixedSnoc(walked, next, Walk(c, next, rest[1..]));
    }
  }

  lemma AfterTextAppend(a: string, b: string, g: Generated)
    ensures AfterText(a, AfterText(b, g)) == AfterText(a + b, g)
  {
    match g
    case Sentence(p) => assert a + (b + p) == (a + b) + p;
    case _ =>
  }

  /** One sentence of the paragraph, then the rest. */
  lemma ParagraphStep(c: Chain, chs: seq<Choice>)
    requires ValidChain(c) && chs != [] && forall k :: 0 <= k < |chs| ==> ChoiceFits(c, chs[k])
    ensures Paragraph(c, chs) == match Generate(c, chs[0])
                                 case Sentence(s) => AfterText(s + " ", Paragraph(c, chs[1..]))
                                 case g => g
  {
    var gs := Sentences(c, chs);
    assert gs[1..] == Sentences(c, chs[1..]) by {
      forall k | 0 <= k < |chs| - 1
        ensures gs[1..][k] == Sentences(c, chs[1..])[k]
      {
        assert chs[1..][k] == chs[k + 1];
      }
    }
  }

  class Markov {
    var wordMap: map<string, Collection>
    var startWords: seq<string>
    var endWords: set<string>

    /** The chain the three fields hold. */
    function State(): Chain
      reads this
    {
      Chain(wordMap, startWords, endWords)
    }

    ghost predicate Valid()
      reads this
    {
      ValidChain(State())
    }

    /** The field initialisation of the constructor. */
    constructor Empty()
      ensures State() == Training.Empty && Valid()
    {
      wordMap := map[];
      startWords := [];
      endWords := {};
    }

    /**
     * The constructor: a fresh chain trained on every message, or no object
     * at all when some message is too short (the exception escapes).
     */
    static method Create(inputs: seq<string>) returns (r: Option<Markov>)
      ensures r.Some? <==> forall k :: 0 <= k < |inputs| ==> |Split(inputs[k])| >= 3
      ensures r.Some? ==> && fresh(r.value) && r.value.Valid()
                          && Training.ParseInputs(Training.Empty, inputs) == Success(r.value.State())
    {
      var m := new Markov.Empty();
      var ok := m.ParseInputs(inputs);
      ParseInputsFails(Training.Empty, inputs);
      r := if ok then Some(m) else None;
    }

    /** parseInput(List): the messages in order, stopping at the first that is too short. */
    method ParseInputs(inputs: seq<string>) returns (ok: bool)
      requires Valid()
      modifies this
      ensures Valid()
      ensures ok <==> Training.ParseInputs(old(State()), inputs).Success?
      ensures ok ==> State() == Training.ParseInputs(old(State()), inputs).value
    {
      for k := 0 to |inputs|
        invariant Valid()
        invariant Training.ParseInputs(State(), inputs[k..]) == Training.ParseInputs(old(State()), inputs)
      {
        assert inputs[k..][1..] == inputs[k + 1..];
        var accepted := ParseInput(inputs[k]);
        if !accepted {
          return false;
        }
      }
      return true;
    }

    /** parseInput(String): tokenise one message and train on its tokens. */
    method ParseInput(input: string) returns (ok: bool)
      requires Valid()
      modifies this
      ensures Valid()
      ensures ok <==> |Split(input)| >= 3
      ensures State() == if ok then Train(old(State()), Split(input), 0) else old(State())
    {
      var tokens := Split(input);
      if |tokens| < 3 {
        return false;
      }
      ghost var s0 := State();
      for i := 0 to |tokens|
        invariant Train(State(), tokens, i) == Train(s0, tokens, 0)
      {
        ghost var before := State();
        var word := tokens[i];
        if word == "" {
          continue;
        }
        if i == 0 {
          if word !in startWords {
            startWords := startWords + [word];
          }
        } else if IsEndWord(word) {
          endWords := endWords + {word};
          InsertWordFrequency(word, END_WORD);
          assert State() == TokenStep(before, tokens, i);
          continue;
        }
        if i == |tokens| - 1 {
          InsertWordFrequency(word, END_WORD);
          assert State() == TokenStep(before, tokens, i);
          assert State() == Train(s0, tokens, 0);
          break;
        }
        var nextWord := tokens[i + 1];
        if nextWord == "" {
          continue;
        }
        if word in wordMap {
          UpdateWordFrequency(word, nextWord);
        } else {
          InsertWordFrequency(word, nextWord);
        }
        assert State() == TokenStep(before, tokens, i);
      }
      SplitTokensOk(input);
      TrainValid(s0, tokens);
      ok := true;
    }

    /** insertWordFrequency: the word's whole collection becomes {followWord: 1}. */
    method InsertWordFrequency(word: string, followWord: string)
      modifies this
      ensures wordMap == old(wordMap)[word := Single(followWord)]
      ensures startWords == old(startWords) && endWords == old(endWords)
    {
      var wc: Collection := [];
      wc := Add(wc, Element(followWord, 1));
      assert wc == Single(followWord);
      wordMap := wordMap[word := wc];
    }

    /** updateWordFrequency: raise the follow word's weight by one, or add it with weight 1. */
    method UpdateWordFrequency(key: string, followWord: string)
      requires key in wordMap
      modifies this
      ensures wordMap == old(wordMap)[key := Increment(old(wordMap)[key], followWord)]
      ensures startWords == old(startWords) && endWords == old(endWords)
    {
      var followFrequency := wordMap[key];
      match Get(followFrequency, followWord)
      case Some(fw) =>
        wordMap := wordMap[key := Update(followFrequency, followWord, fw.weight + 1)];
      case None =>
        wordMap := wordMap[key := Add(followFrequency, Element(followWord, 1))];
    }

    /** getStartWord: advance an iterator over the start words `startNo` times. */
    method GetStartWord(startNo: nat) returns (word: string)
      requires startNo < |startWords|
      ensures word == startWords[startNo]
    {
      var next := 0;
      for i := 0 to startNo
        invariant next == i
      {
        next := next + 1;
      }
      word := startWords[next];
    }

    /**
     * generate: the walk from the chosen start word, one draw per step, then
     * the join and the punctuation step. Running out of draws is reported as
     * Unfinished; an empty start-word set as NoStartWords.
     */
    method Generate(ch: Choice) returns (r: Generated)
      requires Valid() && ChoiceFits(State(), ch)
      ensures r == Generation.Generate(State(), ch)
    {
      if |startWords| == 0 {
        return NoStartWords;
      }
      var word := GetStartWord(ch.startNo);
      ghost var start := word;
      ghost var c := State();
      var sentence := [word];
      var endWordHit := false;
      var sentinelHit := false;
      var k := 0;
      assert sentence[1..] == [] && ch.draws[k..] == ch.draws;
      PrefixedNil(Walk(c, word, ch.draws));
      while !endWordHit && k < |ch.draws|
        invariant k <= |ch.draws|
        invariant |sentence| >= 1 && sentence[0] == start
        invariant !endWordHit ==>
                    && word in wordMap
                    && Walk(c, start, ch.draws) == Prefixed(sentence[1..], Walk(c, word, ch.draws[k..]))
        invariant endWordHit ==> Walk(c, start, ch.draws) == Some(sentence[1..])
        decreases |ch.draws| - k
      {
        ghost var walked := sentence[1..];
        WalkAdvance(c, Walk(c, start, ch.draws), walked, word, ch.draws[k..]);
        assert ch.draws[k..][0] == ch.draws[k];
        var nextEntry := wordMap[word];
        word := Draw(nextEntry, ch.draws[k]).GetOr("");
        assert ch.draws[k..][1..] == ch.draws[k + 1..];
        k := k + 1;
        if word in endWords {
          endWordHit := true;
        }
        if word == END_WORD {
          sentinelHit := true;
          break;
        }
        sentence := sentence + [word];
        assert sentence[1..] == walked + [word];
      }
      if !endWordHit && !sentinelHit {
        return Unfinished;
      }
      var s := Join(sentence);
      if NeedsEnding(s) {
        s := s + Draw(GetSentenceEnds(), ch.ending).GetOr(FALLBACK);
      }
      return Sentence(s);
    }

    /** generateRandom: `roll + 1` sentences, each followed by one space. */
    method GenerateRandom(roll: nat, chs: seq<Choice>) returns (r: Generated)
      requires Valid() && roll < 5 && |chs| == roll + 1
      requires forall k :: 0 <= k < |chs| ==> ChoiceFits(State(), chs[k])
      ensures r == Paragraph(State(), chs)
    {
      ghost var c := State();
      var sentences := roll + 1;
      var sb := "";
      assert chs[0..] == chs;
      for i := 0 to sentences
        invariant Paragraph(c, chs) == AfterText(sb, Paragraph(c, chs[i..]))
      {
        var g := Generate(chs[i]);
        ParagraphStep(c, chs[i..]);
        assert chs[i..][1..] == chs[i + 1..];
        if !g.Sentence? {
          return g;
        }
        AfterTextAppend(sb, g.text + " ", Paragraph(c, chs[i + 1..]));
        sb := sb + (g.text + " ");
      }
      assert chs[sentences..] == [];
      return Sentence(sb);
    }
  }
}
