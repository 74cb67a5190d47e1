# A verified model of the Markov sentence generator

This project models the Markov-chain engine of the chat bot (`Markov.java`): training a first-order word chain on a user's messages, and generating sentences that walk that chain.

**Training.** Each message is split into whitespace-separated tokens. A message with fewer than three tokens throws, and the exception aborts the whole build. For each token:
- The first token, when non-empty, becomes a start word.
- A token after position 0 that ends in `.`, `!` or `?` becomes an end word.
- Such a token, and the last token of a message, get their successor collection *replaced* by `{END_WORD: 1}`.
- Any other token is linked to the token after it: a new word gets `{next: 1}`, and a known word has the weight of `next` raised by one (or `next` added with weight 1).

**Generation.** A start word is picked. The walk then draws one successor per step. It stops when it draws the sentinel string `"END_WORD"`, which is not appended, or right after it appends an end word. The words are joined with single spaces. One symbol from a fixed seven-entry table is appended when the last character is not already a terminating character. `generateRandom` runs one to five such sentences and puts one space after each.

Layout:
- `wrappers.dfy`: `Option` and `Result`.
- `weighted.dfy`: the weighted successor collection (lookup, add, update, increment, cumulative-weight draw).
- `tokens.dfy`: the tokeniser, the join, and the end-word test.
- `training.dfy`: the chain as a value, the training specification, and its invariants.
- `generation.dfy`: the sentence-end table, the punctuation step, the walk, and sentence and paragraph assembly.
- `markov.dfy`: the `Markov` class. Its three fields are updated in place by imperative training methods, and read by generation methods. Each method is proved against the specification functions.
- `scenarios.dfy`: concrete messages run through the training model.

Every random draw is a caller-supplied number:
- The start index is the value `nextInt(|startWords|)` returns.
- Each successor draw is a number reduced to `[0, total weight)` and resolved by cumulative weights.
- The sentence-end draw works the same way over the table.

`Weighted.DrawReaches` and `Generation.WalkComplete` show that these parameters exclude no outcome the source can produce. `Generation.WalkSound` shows that they admit no other outcome.

## Model

| member | source | states |
|---|---|---|
| Weighted.Get | src/main/java/uk/co/markg/bertrand/markov/Markov.java:196 | lookup by value yields an element of the collection holding that value, and nothing exactly when no element holds it |
| Weighted.GetUnique | src/main/java/uk/co/markg/bertrand/markov/Markov.java:196 | in a duplicate-free collection, lookup finds the one element holding the value |
| Weighted.Add | src/main/java/uk/co/markg/bertrand/markov/Markov.java:198 | adding an absent value makes it findable with its weight, adds exactly that value, and leaves every other lookup unchanged |
| Weighted.Update | src/main/java/uk/co/markg/bertrand/markov/Markov.java:197 | after an update, the value's element has the new weight; the set of values and every other lookup are unchanged; distinctness and positive weights are kept |
| Weighted.Increment | src/main/java/uk/co/markg/bertrand/markov/Markov.java:194-199 | the follow word's weight becomes its old weight plus one (1 when absent); every other successor and weight is unchanged; distinctness and positive weights are kept |
| Weighted.Pick | src/main/java/uk/co/markg/bertrand/markov/Markov.java:94 | the cumulative-weight walk stops at an element of the collection whose weight is positive |
| Weighted.Draw | src/main/java/uk/co/markg/bertrand/markov/Markov.java:94 | a draw is empty exactly when the total weight is 0; otherwise it returns a value the collection holds |
| Weighted.PositiveTotal | src/main/java/uk/co/markg/bertrand/markov/Markov.java:93-94 | a non-empty collection with positive weights has a positive total, so a draw from it is never empty |
| Weighted.DrawReaches | src/main/java/uk/co/markg/bertrand/markov/Markov.java:94 | every element of positive weight is returned by the draw at its cumulative offset |
| Tokens.Split | src/main/java/uk/co/markg/bertrand/markov/Markov.java:128 | the tokeniser: given meaning by `Tokens.SplitShape`, `Tokens.SplitContent` and `Tokens.SplitJoin` |
| Tokens.Join | src/main/java/uk/co/markg/bertrand/markov/Markov.java:103 | joining words with single spaces: given meaning by `Tokens.SplitJoin` and `Tokens.JoinCut` |
| Tokens.SplitShape | src/main/java/uk/co/markg/bertrand/markov/Markov.java:128 | tokens contain no whitespace; every token after position 0 is non-empty; token 0 is empty exactly when the message starts with whitespace |
| Tokens.CutShape | src/main/java/uk/co/markg/bertrand/markov/Markov.java:128 | the pieces between whitespace runs contain no whitespace; only the first and last can be empty |
| Tokens.SplitJoin | src/main/java/uk/co/markg/bertrand/markov/Markov.java:103 | splitting words joined by single spaces gives back the words (round trip of join and split) |
| Tokens.JoinCut | src/main/java/uk/co/markg/bertrand/markov/Markov.java:128 | re-joining the pieces of a message with single spaces gives the message with every whitespace run collapsed to one space |
| Tokens.CollapseLetters | src/main/java/uk/co/markg/bertrand/markov/Markov.java:128 | collapsing whitespace runs keeps every non-whitespace character, in order |
| Tokens.SplitContent | src/main/java/uk/co/markg/bertrand/markov/Markov.java:128 | the tokens, re-joined with single spaces, are the message with whitespace runs collapsed and a trailing space dropped; they hold every non-whitespace character of the message, in order |
| Tokens.IsEndWord | src/main/java/uk/co/markg/bertrand/markov/Markov.java:167-174 | the end-word test: given meaning by `Tokens.EndWordLastChar` |
| Tokens.EndWordLastChar | src/main/java/uk/co/markg/bertrand/markov/Markov.java:167-174 | a word is an end word exactly when its last character is `.`, `!` or `?` |
| Training.TokenStep | src/main/java/uk/co/markg/bertrand/markov/Markov.java:133-158 | one token of the training loop: given meaning by `Training.StepLinks`, `Training.TrainResets` and `Training.StepInv` |
| Training.Train | src/main/java/uk/co/markg/bertrand/markov/Markov.java:133-158 | the training loop over a message's tokens: given meaning by `Training.TrainStartWords`, `Training.TrainEndWords`, `Training.TrainResets` and `Training.TrainValid` |
| Training.ParseInput | src/main/java/uk/co/markg/bertrand/markov/Markov.java:127-132 | one message: given meaning by `Training.ParseInputsFails` and `MarkovModel.Markov.ParseInput` |
| Training.ParseInputs | src/main/java/uk/co/markg/bertrand/markov/Markov.java:116-120 | all messages in turn: given meaning by `Training.ParseInputsFails` and `Training.ParseInputsValid` |
| Training.AddStart | src/main/java/uk/co/markg/bertrand/markov/Markov.java:139 | adding a start word yields exactly the old start words plus that word |
| Training.ParseInputsFails | src/main/java/uk/co/markg/bertrand/markov/Markov.java:116-132 | a build fails exactly when some message splits into fewer than 3 tokens (3 is accepted); the error names such a message |
| Training.TrainStartWords | src/main/java/uk/co/markg/bertrand/markov/Markov.java:133-140 | a message adds its first token to the start words when that token is non-empty, and nothing otherwise |
| Training.TrainKeepsStarts | src/main/java/uk/co/markg/bertrand/markov/Markov.java:138-139 | tokens after position 0 never change the start words |
| Training.TrainEndWords | src/main/java/uk/co/markg/bertrand/markov/Markov.java:140-143 | a message adds to the end words exactly its non-empty stop-terminated tokens after position 0 |
| Training.TrainResets | src/main/java/uk/co/markg/bertrand/markov/Markov.java:140-147 | after a message, each stop-terminated token after position 0, and its last token, map to exactly {END_WORD: 1} |
| Training.ResetPersists | src/main/java/uk/co/markg/bertrand/markov/Markov.java:140-143 | a later occurrence of an end word resets it again, so its collection stays {END_WORD: 1} |
| Training.ResetFrom | src/main/java/uk/co/markg/bertrand/markov/Markov.java:140-147 | training from any earlier position leaves such a token at exactly {END_WORD: 1} |
| Training.StepLinks | src/main/java/uk/co/markg/bertrand/markov/Markov.java:149-157 | a linking token gains exactly one key or one weight unit for its follow word; all other keys, successors, weights and end words are unchanged |
| Training.Install | src/main/java/uk/co/markg/bertrand/markov/Markov.java:182-186 | giving a word a good collection whose successors are keys, the word itself or pending tokens keeps the map well formed and closed |
| Training.StepInv | src/main/java/uk/co/markg/bertrand/markov/Markov.java:133-158 | one token step keeps the chain invariant, with the following token as the only successor that may not yet be a key |
| Training.TrainKeepsInv | src/main/java/uk/co/markg/bertrand/markov/Markov.java:133-159 | the remaining token steps restore the full chain invariant |
| Training.TrainValid | src/main/java/uk/co/markg/bertrand/markov/Markov.java:133-159 | training keeps every collection non-empty with positive weights, and every start word and non-sentinel successor a key |
| Training.SplitTokensOk | src/main/java/uk/co/markg/bertrand/markov/Markov.java:128-137 | the model's ASCII tokeniser never gives an empty token after position 0, which the unguarded lookups rely on |
| Training.ParseInputsValid | src/main/java/uk/co/markg/bertrand/markov/Markov.java:116-120 | a successful build from a valid chain is valid |
| Generation.GetSentenceEnds | src/main/java/uk/co/markg/bertrand/markov/Markov.java:37-47 | the table holds `.`, `!`, `?`, `!!`, `??`, `!?`, `...` in that order, distinct and positively weighted |
| Generation.SentenceEndsOrder | src/main/java/uk/co/markg/bertrand/markov/Markov.java:39-45 | the table lists `.`, `!`, `?`, `!!`, `??`, `!?`, `...` in insertion order, each with a positive weight |
| Generation.SentenceEndsTotal | src/main/java/uk/co/markg/bertrand/markov/Markov.java:39-45 | the seven weights total 10000 ten-thousandths, one whole |
| Generation.SentenceEndsDistinct | src/main/java/uk/co/markg/bertrand/markov/Markov.java:39-45 | no symbol is added twice |
| Generation.SentenceEndsValues | src/main/java/uk/co/markg/bertrand/markov/Markov.java:39-45 | the table holds exactly the seven symbols |
| Generation.IsTerminalChar | src/main/java/uk/co/markg/bertrand/markov/Markov.java:105 | the characters after which no sentence end is appended: given meaning by `Generation.Terminate` |
| Generation.NeedsEnding | src/main/java/uk/co/markg/bertrand/markov/Markov.java:105 | a non-empty text whose last character is not terminating: given meaning by `Generation.Terminate` |
| Generation.Terminate | src/main/java/uk/co/markg/bertrand/markov/Markov.java:105-107 | exactly one table symbol is appended when the last character is outside the terminating set; otherwise the text is unchanged; the result never needs another ending |
| Generation.Walk | src/main/java/uk/co/markg/bertrand/markov/Markov.java:92-102 | the walk from a start word, one draw per step: given meaning by `Generation.WalkStep`, `Generation.WalkSound` and `Generation.WalkComplete` |
| Generation.LegalWalk | src/main/java/uk/co/markg/bertrand/markov/Markov.java:92-102 | the walks the chain allows: given meaning by `Generation.WalkSound`, `Generation.WalkComplete` and `Generation.LegalWalkWords` |
| Generation.WalkStep | src/main/java/uk/co/markg/bertrand/markov/Markov.java:93-101 | one draw always yields a successor; the walk stops at the sentinel (appending nothing) or at an end word (appending it), and otherwise continues from the drawn word, which is a key |
| Generation.LegalWalkWords | src/main/java/uk/co/markg/bertrand/markov/Markov.java:92-102 | every word of a legal walk in a valid chain is non-empty, free of whitespace, and not the sentinel |
| Generation.WalkSound | src/main/java/uk/co/markg/bertrand/markov/Markov.java:92-102 | a finished walk uses at most one draw per word; each word is a successor of the one before and never the sentinel; only the last can be an end word; it stops at an end word or where the sentinel is a successor |
| Generation.WalkComplete | src/main/java/uk/co/markg/bertrand/markov/Markov.java:92-102 | every walk the chain allows is produced by some sequence of draws |
| Generation.Generate | src/main/java/uk/co/markg/bertrand/markov/Markov.java:86-109 | one sentence for given draws: given meaning by `Generation.GenerateShape` |
| Generation.GenerateShape | src/main/java/uk/co/markg/bertrand/markov/Markov.java:86-109 | generation fails for lack of start words exactly when there are none; a sentence is a legal walk from a start word, re-splits into its words, and ends in a terminating character |
| Generation.Glue | src/main/java/uk/co/markg/bertrand/markov/Markov.java:66-70 | sentences each followed by a space, stopping at the first failure: given meaning by `Generation.GlueShape` |
| Generation.Paragraph | src/main/java/uk/co/markg/bertrand/markov/Markov.java:64-71 | one to five sentences: given meaning by `Generation.ParagraphShape` and `MarkovModel.ParagraphStep` |
| Generation.GlueShape | src/main/java/uk/co/markg/bertrand/markov/Markov.java:66-70 | glued sentences succeed exactly when each does; the text starts with the first sentence and a space and ends in a space |
| Generation.ParagraphShape | src/main/java/uk/co/markg/bertrand/markov/Markov.java:64-71 | several sentences succeed exactly when each does; the text starts with the first sentence and a space and ends in a space |
| MarkovModel.Markov.Empty | src/main/java/uk/co/markg/bertrand/markov/Markov.java:25-28 | a new model has an empty map, no start words and no end words, and is valid |
| MarkovModel.Markov.Create | src/main/java/uk/co/markg/bertrand/markov/Markov.java:25-30 | an object exists exactly when every message has at least 3 tokens; it is valid and holds the trained chain |
| MarkovModel.Markov.ParseInputs | src/main/java/uk/co/markg/bertrand/markov/Markov.java:116-120 | succeeds exactly when the specification does, then holds the specified chain; keeps the model valid |
| MarkovModel.Markov.ParseInput | src/main/java/uk/co/markg/bertrand/markov/Markov.java:127-159 | a short message changes nothing and reports failure; otherwise the fields become the chain trained on the message's tokens, and the model stays valid |
| MarkovModel.Markov.InsertWordFrequency | src/main/java/uk/co/markg/bertrand/markov/Markov.java:182-186 | the word's collection becomes exactly {followWord: 1}; nothing else changes |
| MarkovModel.Markov.UpdateWordFrequency | src/main/java/uk/co/markg/bertrand/markov/Markov.java:194-199 | the key's collection becomes its increment by the follow word; nothing else changes |
| MarkovModel.Markov.GetStartWord | src/main/java/uk/co/markg/bertrand/markov/Markov.java:73-79 | the start word at position `startNo` in iteration order |
| MarkovModel.Markov.Generate | src/main/java/uk/co/markg/bertrand/markov/Markov.java:86-109 | the loop computes the specified sentence for the given draws |
| MarkovModel.Markov.GenerateRandom | src/main/java/uk/co/markg/bertrand/markov/Markov.java:64-71 | the loop computes the specified one-to-five-sentence text |
| MarkovModel.ParagraphStep | src/main/java/uk/co/markg/bertrand/markov/Markov.java:67-69 | the text is the first sentence and a space, then the rest; a failing sentence ends it |
| Scenarios.TwoTokensRejected | src/main/java/uk/co/markg/bertrand/markov/Markov.java:128-132 | "hi there" is rejected, and so is any build that contains it |
| Scenarios.ThreeTokensAccepted | src/main/java/uk/co/markg/bertrand/markov/Markov.java:129 | "a b c" is accepted |
| Scenarios.TheSteps | src/main/java/uk/co/markg/bertrand/markov/Markov.java:133-158 | training a six-token message "the x . . the y" increments the successors of "the" by x and then by y, whatever else the middle tokens do |
| Scenarios.TheAfter | src/main/java/uk/co/markg/bertrand/markov/Markov.java:149-157 | when x and y are new successors, they are appended to those of "the" with weight 1 each, in that order |
| Scenarios.TheAfterCat | src/main/java/uk/co/markg/bertrand/markov/Markov.java:133-158 | after "the cat . . the mat.", "the" is followed by exactly cat:1, mat.:1 |
| Scenarios.TheAfterDog | src/main/java/uk/co/markg/bertrand/markov/Markov.java:133-158 | then "the dog . . the park!" makes that cat:1, mat.:1, dog:1, park!:1 |
| Scenarios.TwoMessages | src/main/java/uk/co/markg/bertrand/markov/Markov.java:133-158 | the messages "the cat sat on the mat." and "the dog ran in the park!" (each given as its words joined by single spaces) give start words ["the"], end words {"mat.", "park!"}, and successors of "the" exactly cat:1, mat.:1, dog:1, park!:1 in that order |

Behaviour of the code that the model keeps:
- The tokeniser keeps an empty first token for a message that starts with whitespace. That message then contributes no start word.
- A token at position 0 is never an end word of its own message. It is linked to its successor even if it ends in a stop.
- A stop-terminated token and a last token have their collection replaced, not incremented.
- `generateRandom` puts a space after every sentence, including the last.
- A token spelled `END_WORD` is stored like any word. It can become a key, and as a successor it ends a walk exactly as the sentinel does.

## Left out

- `load` and the message repository: the constructor takes the message texts directly.
- Logging.
- The Discord listener that deletes departed users' data.
- Thread safety of concurrent `generate` calls.
- Probabilities: draws are parameters. The model proves which outcomes are possible, not how likely they are.
- The double-precision sentence-end weights: they are integers in ten-thousandths of the same literals. This fixes membership and order only.
- `WeightedCollection.java` and `WeightedElement.java` are not part of this model. Their behaviour is modelled from how `Markov.java` uses them.
- Weighted.Add: requires the value to be absent, as every call in `Markov.java` guarantees. How `WeightedCollection` treats a duplicate is not modelled.
- A successor collection is a value in the map, not a shared object. Each collection is created fresh and never aliased, so in-place update becomes map reassignment.
- `HashSet` iteration order: start words are a duplicate-free sequence in insertion order. Any start word can still be chosen.
- The tokeniser cuts at ASCII whitespace (space, tab, line feed, vertical tab, form feed, carriage return). Two Java regex details are not modelled: the Unicode vertical-whitespace characters matched by `\v`, and `.` not matching line terminators in the punctuation test.
- Tokens.Split: a `\v`-only character (U+0085, U+2028, U+2029) right after whitespace is consumed by the delimiter, and the next whitespace then gives an empty middle token. `"a \u2028 b c"` splits into `["a", "", "b", "c"]`. The token before it becomes a start word or stays unlinked (its link is skipped at line 150), so it may never become a key. A later `generate` can then reach the null lookup at line 93 and throw a `NullPointerException`. The model's ASCII tokeniser never gives empty middle tokens, so `Training.StartsValid` and the proof that the lookup succeeds cover only that case.
- MarkovModel.Markov.Generate: the walk runs for at most one step per supplied draw. When the draws run out first, the result is `Unfinished`. The source would loop on, possibly forever on a cycle.
- MarkovModel.Markov.Generate: with no start words, `nextInt(0)` throws. This is reported as `NoStartWords`.
- MarkovModel.Markov.Generate: the null-map lookup and the `orElse("")` fallback are not modelled as reachable. The chain invariant rules them out, and this is proved only for the ASCII tokeniser.
- MarkovModel.Markov.UpdateWordFrequency: requires the key to be present. The source only calls it after `containsKey`.
- MarkovModel.Markov.ParseInputs: after a failure, the contract does not describe the partly trained fields. The constructor discards that object.
