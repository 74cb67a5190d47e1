/**
 * Training: the chain built from tokenised messages. `TokenStep` is what the
 * body of the token loop in parseInput does to the chain for one token;
 * `Train` runs it over a message's tokens, and `ParseInputs` over all
 * messages, failing on the first message with fewer than three tokens.
 */
module Training {
  import opened Wrappers
  import opened Weighted
  import opened Tokens

  /** The successor recorded when a message ends at a word; a plain string, so a real token "END_WORD" is indistinguishable from it. */
  const END_WORD: string := "END_WORD"

  /** The three fields the chain is made of. `startWords` is kept duplicate-free, in insertion order. */
  datatype Chain = Chain(wordMap: map<string, Collection>, startWords: seq<string>, endWords: set<string>)

  /** The chain a new model starts from. */
  const Empty: Chain := Chain(map[], [], {})

  /** The collection insertWordFrequency installs: one successor, weight 1. */
  function Single(follow: string): Collection {
    [Element(follow, 1)]
  }

  /** HashSet.add on the start words. */
  function AddStart(ws: seq<string>, w: string): (r: seq<string>)
    ensures w in r && forall x :: x in r <==> x in ws || x == w
  {
    if w in ws then ws else ws + [w]
  }

  /** What processing token `i` of `t` does to the chain. */
  function TokenStep(c: Chain, t: seq<string>, i: nat): Chain
    requires i < |t|
  {
    var word := t[i];
    if word == "" then c
    else
      var c1 := if i == 0 then c.(startWords := AddStart(c.startWords, word)) else c;
      if i != 0 && IsEndWord(word) then
        c1.(endWords := c1.endWords + {word}, wordMap := c1.wordMap[word := Single(END_WORD)])
      else if i == |t| - 1 then
        c1.(wordMap := c1.wordMap[word := Single(END_WORD)])
      else if t[i + 1] == "" then c1
      else if word in c1.wordMap then
        c1.(wordMap := c1.wordMap[word := Increment(c1.wordMap[word], t[i + 1])])
      else
        c1.(wordMap := c1.wordMap[word := Single(t[i + 1])])
  }

  /** Processing tokens `i`, `i + 1`, ... of `t` in order. */
  function Train(c: Chain, t: seq<string>, i: nat): Chain
    requires i <= |t|
    decreases |t| - i
  {
    if i == |t| then c else Train(TokenStep(c, t, i), t, i + 1)
  }

  /** The exception parseInput throws for a message with fewer than three tokens. */
  datatype ParseError = TooShort(input: string)

  /** parseInput(String): tokenise, reject a short message, train on the rest. */
  function ParseInput(c: Chain, input: string): Result<Chain, ParseError> {
    var t := Split(input);
    if |t| < 3 then Failure(TooShort(input)) else Success(Train(c, t, 0))
  }

  /** parseInput(List): every message in order; the first failure aborts the whole build. */
  function ParseInputs(c: Chain, inputs: seq<string>): Result<Chain, ParseError>
    decreases |inputs|
  {
    if inputs == [] then Success(c)
    else
      match ParseInput(c, inputs[0])
      case Failure(e) => Failure(e)
      case Success(c1) => ParseInputs(c1, inputs[1..])
  }

  /**
   * A build fails exactly when some message has fewer than three tokens
   * (three is enough), and the error names such a message.
   */
  lemma {:induction false} ParseInputsFails(c: Chain, inputs: seq<string>)
    ensures ParseInputs(c, inputs).Failure? <==> exists k :: 0 <= k < |inputs| && |Split(inputs[k])| < 3
    ensures ParseInputs(c, inputs).Failure? ==>
              ParseInputs(c, inputs).error.input in inputs && |Split(ParseInputs(c, inputs).error.input)| < 3
    decreases |inputs|
  {
    if inputs != [] {
      if |Split(inputs[0])| >= 3 {
        ParseInputsFails(Train(c, Split(inputs[0]), 0), inputs[1..]);
        if exists k :: 0 <= k < |inputs| && |Split(inputs[k])| < 3 {
          var k :| 0 <= k < |inputs| && |Split(inputs[k])| < 3;
          assert inputs[1..][k - 1] == inputs[k];
        }
      }
    }
  }

  // ---------------------------------------------------------------------
  // Start words and end words

  /** Steps after the first never touch the start words. */
  lemma {:induction false} TrainKeepsStarts(c: Chain, t: seq<string>, i: nat)
    requires 1 <= i <= |t|
    ensures Train(c, t, i).startWords == c.startWords
    decreases |t| - i
  {
    if i < |t| {
      TrainKeepsStarts(TokenStep(c, t, i), t, i + 1);
    }
  }

  /**
   * A message contributes its first token to the start words when that token
   * is non-empty, and nothing else; a message that starts with whitespace
   * contributes no start word.
   */
  lemma TrainStartWords(c: Chain, t: seq<string>)
    ensures Train(c, t, 0).startWords ==
              if t == [] || t[0] == "" then c.startWords else AddStart(c.startWords, t[0])
  {
    if t != [] {
      TrainKeepsStarts(TokenStep(c, t, 0), t, 1);
    }
  }

  /** The tokens at positions `i` and later (never position 0) that end in a stop. */
  function EndTokens(t: seq<string>, i: nat): set<string>
    requires i <= |t|
  {
    set j | i <= j < |t| && j > 0 && t[j] != "" && IsEndWord(t[j]) :: t[j]
  }

  /**
   * Training adds to the end words exactly the stop-terminated tokens after
   * position 0; the first token is never an end word of its own message.
   */
  lemma {:induction false} TrainEndWords(c: Chain, t: seq<string>, i: nat)
    requires i <= |t|
    ensures Train(c, t, i).endWords == c.endWords + EndTokens(t, i)
    decreases |t| - i
  {
    if i < |t| {
      TrainEndWords(TokenStep(c, t, i), t, i + 1);
      var here := if i > 0 && t[i] != "" && IsEndWord(t[i]) then {t[i]} else {};
      assert EndTokens(t, i) == here + EndTokens(t, i + 1);
    }
  }

  // ---------------------------------------------------------------------
  // Resets: a stop-terminated token or a last token ends with exactly {END_WORD: 1}

  /** Later steps keep an end word's collection at {END_WORD: 1}: a later occurrence resets it again. */
  lemma {:induction false} ResetPersists(c: Chain, t: seq<string>, i: nat, w: string)
    requires 1 <= i <= |t|
    requires IsEndWord(w) && w in c.wordMap && c.wordMap[w] == Single(END_WORD)
    ensures w in Train(c, t, i).wordMap && Train(c, t, i).wordMap[w] == Single(END_WORD)
    decreases |t| - i
  {
    if i < |t| {
      ResetPersists(TokenStep(c, t, i), t, i + 1, w);
    }
  }

  lemma {:induction false} ResetFrom(c: Chain, t: seq<string>, i: nat, j: nat)
    requires j <= i < |t| && 0 < i && t[i] != ""
    requires IsEndWord(t[i]) || i == |t| - 1
    ensures t[i] in Train(c, t, j).wordMap && Train(c, t, j).wordMap[t[i]] == Single(END_WORD)
    decreases i - j
  {
    var c1 := TokenStep(c, t, j);
    if j < i {
      ResetFrom(c1, t, i, j + 1);
    } else if i == |t| - 1 {
      assert Train(c1, t, i + 1) == c1;
    } else {
      ResetPersists(c1, t, i + 1, t[i]);
    }
  }

  /**
   * After training on a message, a stop-terminated token after position 0,
   * and the message's last token, map to exactly {END_WORD: 1}: earlier
   * successors are dropped and no link to the following token is kept.
   */
  lemma TrainResets(c: Chain, t: seq<string>, i: nat)
    requires 0 < i < |t| && t[i] != ""
    requires IsEndWord(t[i]) || i == |t| - 1
    ensures t[i] in Train(c, t, 0).wordMap && Train(c, t, 0).wordMap[t[i]] == Single(END_WORD)
  {
    ResetFrom(c, t, i, 0);
  }

  /**
   * Any other token followed by a non-empty token links to it: an unseen word
   * gets {next: 1}, a seen one has the weight of `next` raised by exactly one
   * (or `next` added with weight 1), and every other word, successor and
   * weight is unchanged.
   */
  lemma StepLinks(c: Chain, t: seq<string>, i: nat)
    requires i + 1 < |t| && t[i] != "" && t[i + 1] != ""
    requires i == 0 || !IsEndWord(t[i])
    requires t[i] in c.wordMap ==> Distinct(c.wordMap[t[i]])
    ensures var r := TokenStep(c, t, i);
      && r.wordMap.Keys == c.wordMap.Keys + {t[i]}
      && (forall w :: w in c.wordMap && w != t[i] ==> r.wordMap[w] == c.wordMap[w])
      && (t[i] !in c.wordMap ==> r.wordMap[t[i]] == [Element(t[i + 1], 1)])
      && (t[i] in c.wordMap ==>
            && WeightOf(r.wordMap[t[i]], t[i + 1]) == WeightOf(c.wordMap[t[i]], t[i + 1]) + 1
            && forall u :: u != t[i + 1] ==> Get(r.wordMap[t[i]], u) == Get(c.wordMap[t[i]], u))
      && r.endWords == c.endWords
  {
  }

  // ---------------------------------------------------------------------
  // The chain invariant

  /** A successor collection generation can draw from. */
  predicate Good(coll: Collection) {
    && coll != []
    && Distinct(coll)
    && Positive(coll)
    && forall v :: v in Values(coll) ==> IsWord(v)
  }

  predicate WellFormed(m: map<string, Collection>) {
    forall w :: w in m ==> Good(m[w])
  }

  /** Every successor is the sentinel, a key, or one of `pending`. */
  predicate Closed(m: map<string, Collection>, pending: set<string>) {
    forall w, v :: w in m && v in Values(m[w]) ==> v == END_WORD || v in m || v in pending
  }

  /** Every start word is a distinct key. */
  predicate StartsValid(c: Chain) {
    && (forall k :: 0 <= k < |c.startWords| ==> IsWord(c.startWords[k]) && c.startWords[k] in c.wordMap)
    && (forall j, k :: 0 <= j < k < |c.startWords| ==> c.startWords[j] != c.startWords[k])
  }

  /**
   * The chain invariant generation relies on: every collection is non-empty
   * with positive whole weights, every start word and every successor other
   * than the sentinel is itself a key.
   */
  predicate ValidChain(c: Chain) {
    WellFormed(c.wordMap) && Closed(c.wordMap, {}) && StartsValid(c)
  }

  /** What the tokeniser guarantees: no whitespace inside a token, and only token 0 may be empty. */
  predicate TokensOk(t: seq<string>) {
    forall j :: 0 <= j < |t| ==> NoSpace(t[j]) && (j > 0 ==> t[j] != "")
  }

  /** The successor added by step `i - 1` that becomes a key at step `i`. */
  function Pending(t: seq<string>, i: nat): set<string> {
    if 0 < i < |t| then {t[i]} else {}
  }

  predicate TrainInv(c: Chain, t: seq<string>, i: nat) {
    WellFormed(c.wordMap) && Closed(c.wordMap, Pending(t, i)) && StartsValid(c)
  }

  lemma EndWordIsWord()
    ensures IsWord(END_WORD)
  {
  }

  /** Giving one key a good collection whose successors are closed keeps the map well formed and closed. */
  lemma Install(m: map<string, Collection>, w: string, coll: Collection, pending: set<string>, pending': set<string>)
    requires WellFormed(m) && Closed(m, pending) && Good(coll)
    requires pending - {w} <= pending'
    requires forall v :: v in Values(coll) ==> v == END_WORD || v in m || v == w || v in pending'
    ensures WellFormed(m[w := coll]) && Closed(m[w := coll], pending')
  {
    var m' := m[w := coll];
    forall x, v | x in m' && v in Values(m'[x])
      ensures v == END_WORD || v in m' || v in pending'
    {
      if x != w {
        assert v in Values(m[x]);
      }
    }
  }

  lemma {:induction false} StepInv(c: Chain, t: seq<string>, i: nat)
    requires i < |t| && TokensOk(t) && TrainInv(c, t, i)
    ensures TrainInv(TokenStep(c, t, i), t, i + 1)
  {
    var word := t[i];
    EndWordIsWord();
    if word != "" {
      var c1 := if i == 0 then c.(startWords := AddStart(c.startWords, word)) else c;
      var m := c.wordMap;
      var pend' := Pending(t, i + 1);
      assert Pending(t, i) - {word} <= pend';
      var coll;
      if (i != 0 && IsEndWord(word)) || i == |t| - 1 {
        coll := Single(END_WORD);
      } else {
        var next := t[i + 1];
        assert IsWord(next);
        assert next in pend';
        if word in m {
          coll := Increment(m[word], next);
          assert forall v :: v in Values(m[word]) ==> v == END_WORD || v in m || v in Pending(t, i);
        } else {
          coll := Single(next);
        }
      }
      assert Good(coll);
      Install(m, word, coll, Pending(t, i), pend');
      assert TokenStep(c, t, i).wordMap == m[word := coll];
      assert TokenStep(c, t, i).startWords == c1.startWords;
      assert IsWord(word);
    }
  }

  lemma {:induction false} TrainKeepsInv(c: Chain, t: seq<string>, i: nat)
    requires i <= |t| && TokensOk(t) && TrainInv(c, t, i)
    ensures ValidChain(Train(c, t, i))
    decreases |t| - i
  {
    if i < |t| {
      StepInv(c, t, i);
      TrainKeepsInv(TokenStep(c, t, i), t, i + 1);
    }
  }

  /** Training on a tokenised message keeps the chain invariant. */
  lemma TrainValid(c: Chain, t: seq<string>)
    requires ValidChain(c) && TokensOk(t)
    ensures ValidChain(Train(c, t, 0))
  {
    TrainKeepsInv(c, t, 0);
  }

  /** The tokens of any message meet what training needs. */
  lemma SplitTokensOk(input: string)
    ensures TokensOk(Split(input))
  {
    SplitShape(input);
  }

  /** A successful build from a valid chain (the empty one, say) yields a valid chain. */
  lemma {:induction false} ParseInputsValid(c: Chain, inputs: seq<string>)
    requires ValidChain(c)
    ensures ParseInputs(c, inputs).Success? ==> ValidChain(ParseInputs(c, inputs).value)
    decreases |inputs|
  {
    if inputs != [] && |Split(inputs[0])| >= 3 {
      SplitTokensOk(inputs[0]);
      TrainValid(c, Split(inputs[0]));
      ParseInputsValid(Train(c, Split(inputs[0]), 0), inputs[1..]);
    }
  }
}
