/**
 * Concrete messages run through the training model: a two-word message is
 * rejected, three words are enough, and two messages that share their first
 * word give one start word and their two stop-terminated words as end words.
 */
module Scenarios {
  import opened Wrappers
  import opened Weighted
  import opened Tokens
  import opened Training

  lemma TokensOf(ws: seq<string>, s: string)
    requires |ws| >= 1 && forall j :: 0 <= j < |ws| ==> IsWord(ws[j])
    requires Join(ws) == s
    ensures Split(s) == ws
  {
    SplitJoin(ws);
  }

  /** "hi there" has two tokens and is rejected; the rejection aborts a build that contains it. */
  lemma TwoTokensRejected(c: Chain, others: seq<string>)
    ensures ParseInput(c, "hi there") == Failure(TooShort("hi there"))
    ensures ParseInputs(c, others + ["hi there"]).Failure?
  {
    TokensOf(["hi", "there"], "hi there");
    ParseInputsFails(c, others + ["hi there"]);
    assert (others + ["hi there"])[|others|] == "hi there";
  }

  /** Three tokens are accepted. */
  lemma ThreeTokensAccepted(c: Chain)
    ensures ParseInput(c, "a b c").Success?
  {
    TokensOf(["a", "b", "c"], "a b c");
  }

  lemma CatWords(ws: seq<string>)
    requires ws == ["the", "cat", "sat", "on", "the", "mat."]
    ensures forall j :: 0 <= j < |ws| ==> IsWord(ws[j])
  {
  }

  lemma DogWords(ws: seq<string>)
    requires ws == ["the", "dog", "ran", "in", "the", "park!"]
    ensures forall j :: 0 <= j < |ws| ==> IsWord(ws[j])
  {
  }

  /** The only stop-terminated token after position 0 of a message. */
  lemma OneEndToken(t: seq<string>, k: nat)
    requires 0 < k < |t| && t[k] != "" && IsEndWord(t[k])
    requires forall j :: 0 < j < |t| && j != k ==> t[j] != "" && t[j][|t[j]| - 1] !in {'.', '!', '?'}
    ensures EndTokens(t, 0) == {t[k]}
  {
    forall x | x in EndTokens(t, 0)
      ensures x == t[k]
    {
      var j :| 0 <= j < |t| && j > 0 && t[j] != "" && IsEndWord(t[j]) && t[j] == x;
      EndWordLastChar(t[j]);
    }
  }

  lemma TrainMessage(c: Chain, t: seq<string>, last: string)
    requires |t| == 6 && t[0] == "the" && t[5] == last && IsEndWord(last)
    requires forall j :: 0 < j < 5 ==> t[j] != "" && t[j][|t[j]| - 1] !in {'.', '!', '?'}
    ensures Train(c, t, 0).startWords == AddStart(c.startWords, "the")
    ensures Train(c, t, 0).endWords == c.endWords + {last}
  {
    TrainStartWords(c, t);
    TrainEndWords(c, t, 0);
    OneEndToken(t, 5);
  }

  /** The message "the cat sat on the mat.": its six words joined by single spaces. */
  lemma CatMessage(c: Chain, ws: seq<string>)
    requires ws == ["the", "cat", "sat", "on", "the", "mat."]
    ensures ParseInput(c, Join(ws)) == Success(Train(c, ws, 0))
    ensures ParseInput(c, Join(ws)).value.startWords == AddStart(c.startWords, "the")
    ensures ParseInput(c, Join(ws)).value.endWords == c.endWords + {"mat."}
  {
    CatWords(ws);
    SplitJoin(ws);
    CatTrain(c, ws);
  }

  lemma CatTrain(c: Chain, t: seq<string>)
    requires t == ["the", "cat", "sat", "on", "the", "mat."]
    ensures Train(c, t, 0).startWords == AddStart(c.startWords, "the")
    ensures Train(c, t, 0).endWords == c.endWords + {"mat."}
  {
    EndWordLastChar("mat.");
    TrainMessage(c, t, "mat.");
  }

  /** The message "the dog ran in the park!": its six words joined by single spaces. */
  lemma DogMessage(c: Chain, ws: seq<string>)
    requires ws == ["the", "dog", "ran", "in", "the", "park!"]
    ensures ParseInput(c, Join(ws)) == Success(Train(c, ws, 0))
    ensures ParseInput(c, Join(ws)).value.startWords == AddStart(c.startWords, "the")
    ensures ParseInput(c, Join(ws)).value.endWords == c.endWords + {"park!"}
  {
    DogWords(ws);
    SplitJoin(ws);
    DogTrain(c, ws);
  }

  lemma DogTrain(c: Chain, t: seq<string>)
    requires t == ["the", "dog", "ran", "in", "the", "park!"]
    ensures Train(c, t, 0).startWords == AddStart(c.startWords, "the")
    ensures Train(c, t, 0).endWords == c.endWords + {"park!"}
  {
    EndWordLastChar("park!");
    TrainMessage(c, t, "park!");
  }

  /** A token other than `w` leaves the successors of `w` alone. */
  lemma StepKeeps(c: Chain, t: seq<string>, i: nat, w: string)
    requires i < |t| && t[i] != w && w in c.wordMap
    ensures w in TokenStep(c, t, i).wordMap && TokenStep(c, t, i).wordMap[w] == c.wordMap[w]
  {
  }

  /**
   * How the successors of "the" change over a message "the x y z the e":
   * the first "the" links to `x`, the second to `e`, and the other tokens
   * leave them alone.
   */
  lemma TheSteps(c: Chain, t: seq<string>)
    requires |t| == 6 && t[0] == "the" && t[4] == "the" && t[1] != "" && t[5] != ""
    requires t[1] != "the" && t[2] != "the" && t[3] != "the" && t[5] != "the"
    requires "the" in c.wordMap ==> Distinct(c.wordMap["the"])
    ensures "the" in Train(c, t, 0).wordMap
    ensures var before := if "the" in c.wordMap then c.wordMap["the"] else [];
            Train(c, t, 0).wordMap["the"] == Increment(Increment(before, t[1]), t[5])
  {
    EndWordLastChar("the");
    var before := if "the" in c.wordMap then c.wordMap["the"] else [];
    var c1 := TokenStep(c, t, 0);
    assert c1.wordMap["the"] == Increment(before, t[1]) by {
      if "the" !in c.wordMap {
        assert Single(t[1]) == Increment([], t[1]);
      }
    }
    var c2 := TokenStep(c1, t, 1);
    StepKeeps(c1, t, 1, "the");
    var c3 := TokenStep(c2, t, 2);
    StepKeeps(c2, t, 2, "the");
    var c4 := TokenStep(c3, t, 3);
    StepKeeps(c3, t, 3, "the");
    var c5 := TokenStep(c4, t, 4);
    assert c5.wordMap["the"] == Increment(c4.wordMap["the"], t[5]);
    var c6 := TokenStep(c5, t, 5);
    StepKeeps(c5, t, 5, "the");
    assert Train(c5, t, 5) == c6;
    assert Train(c3, t, 3) == Train(c5, t, 5);
    assert Train(c1, t, 1) == Train(c3, t, 3);
    assert Train(c, t, 0) == Train(c1, t, 1);
  }

  /** Incrementing an absent value appends it with weight 1. */
  lemma IncrementNew(c: Collection, v: string)
    requires forall k :: 0 <= k < |c| ==> c[k].value != v
    ensures Increment(c, v) == c + [Element(v, 1)]
  {
    assert v !in Values(c);
  }

  /** Two new successors in turn are appended in that order, each with weight 1. */
  lemma IncrementTwo(e: Collection, x: string, y: string)
    requires x != y
    requires forall k :: 0 <= k < |e| ==> e[k].value != x && e[k].value != y
    ensures Increment(Increment(e, x), y) == e + [Element(x, 1), Element(y, 1)]
  {
    IncrementNew(e, x);
    var e1 := e + [Element(x, 1)];
    assert forall k :: 0 <= k < |e1| ==> e1[k].value != y;
    IncrementNew(e1, y);
    assert e1 + [Element(y, 1)] == e + [Element(x, 1), Element(y, 1)];
  }

  /**
   * Training on a six-token message "the x . . the y" appends x and then y to
   * the successors of "the" when neither is one already.
   */
  lemma TheAfter(c: Chain, t: seq<string>, e: Collection)
    requires |t| == 6 && t[0] == "the" && t[4] == "the" && t[1] != "" && t[5] != ""
    requires t[1] != "the" && t[2] != "the" && t[3] != "the" && t[5] != "the" && t[1] != t[5]
    requires e == if "the" in c.wordMap then c.wordMap["the"] else []
    requires Distinct(e)
    requires forall k :: 0 <= k < |e| ==> e[k].value != t[1] && e[k].value != t[5]
    ensures "the" in Train(c, t, 0).wordMap
    ensures Train(c, t, 0).wordMap["the"] == e + [Element(t[1], 1), Element(t[5], 1)]
  {
    TheSteps(c, t);
    IncrementTwo(e, t[1], t[5]);
  }

  /** After "the cat . . the mat." alone, "the" is followed by "cat" and "mat.". */
  lemma TheAfterCat(t1: seq<string>)
    requires |t1| == 6 && t1[0] == "the" && t1[1] == "cat" && t1[4] == "the" && t1[5] == "mat."
    requires t1[2] != "the" && t1[3] != "the"
    ensures "the" in Train(Empty, t1, 0).wordMap
    ensures Train(Empty, t1, 0).wordMap["the"] == [Element("cat", 1), Element("mat.", 1)]
  {
    TheAfter(Empty, t1, []);
  }

  /** Training "the dog . . the park!" on top of that appends "dog" and "park!". */
  lemma TheAfterDog(c1: Chain, t2: seq<string>)
    requires "the" in c1.wordMap && c1.wordMap["the"] == [Element("cat", 1), Element("mat.", 1)]
    requires |t2| == 6 && t2[0] == "the" && t2[1] == "dog" && t2[4] == "the" && t2[5] == "park!"
    requires t2[2] != "the" && t2[3] != "the"
    ensures "the" in Train(c1, t2, 0).wordMap
    ensures Train(c1, t2, 0).wordMap["the"]
            == [Element("cat", 1), Element("mat.", 1), Element("dog", 1), Element("park!", 1)]
  {
    TheAfter(c1, t2, c1.wordMap["the"]);
  }

  /**
   * Two messages that both start with "the" ("the cat sat on the mat." and
   * "the dog ran in the park!", each given by its words): one start word,
   * and both stop-terminated words as end words.
   */
  lemma TwoMessages(cat: seq<string>, dog: seq<string>)
    requires cat == ["the", "cat", "sat", "on", "the", "mat."]
    requires dog == ["the", "dog", "ran", "in", "the", "park!"]
    ensures var r := ParseInputs(Empty, [Join(cat), Join(dog)]);
      && r.Success?
      && r.value.startWords == ["the"]
      && r.value.endWords == {"mat.", "park!"}
      && "the" in r.value.wordMap
      && r.value.wordMap["the"]
         == [Element("cat", 1), Element("mat.", 1), Element("dog", 1), Element("park!", 1)]
  {
    var c := Empty;
    var s1, s2 := Join(cat), Join(dog);
    CatMessage(c, cat);
    var c1 := ParseInput(c, s1).value;
    DogMessage(c1, dog);
    var c2 := ParseInput(c1, s2).value;
    assert c1 == Train(c, cat, 0);
    TheAfterCat(cat);
    TheAfterDog(c1, dog);
    assert c2 == Train(c1, dog, 0);
    assert c1.startWords == ["the"] by {
      assert AddStart([], "the") == ["the"];
    }
    assert c2.startWords == ["the"];
    assert ParseInputs(c1, [s2]) == Success(c2) by {
      assert [s2][1..] == [];
    }
    assert ParseInputs(c, [s1, s2]) == Success(c2) by {
      assert [s1, s2][0] == s1 && [s1, s2][1..] == [s2];
    }
  }
}
