# Verified models of the inference engine's algorithmic cores

This project models the parts of a C inference engine whose correctness is an argument rather than a
check, and proves what they promise. Floating-point values are exact reals (or, for two kernels, trees
of uninterpreted operations), random draws are a tape of reals from the unit interval, memory never runs
out, and pointers into growing tables are handles that stand for what they point to.

The modules, by subject:

- Speculative decoding. `TokenDist` has the laws and samplers, `DecoderGraph` a model graph as a
  position-indexed cache whose logits at a position depend on the slots up to it, `SpeculativeSpec` and
  `SpeculativeStep` one step as a function and as its loops. `SpeculativeGreedy` and `SpeculativeRun`
  prove that greedy mode prints the target's own stream for any draft; `ResidualIdentity`,
  `SpeculativeLaw`, `SpeculativeFair` and `SpeculativeChain` prove that sampling mode leaves the target
  distribution unchanged.
- The paged KV store and its prefix cache. `KvStore` keeps reference counts, bytes and page numbers
  exact; `RadixTree` and `RadixCache` show that the compressed trie, split and grown in place, is a map
  from token string to snapshot, and that lookup finds the longest usable prefix.
- The tokenizer. `ControlTokens` cuts a text for every kind of vocabulary. `Probing`, `TokenIndex`,
  `ByteMap`, `Bpe`, `PreTokenizer`, `ByteLevel` and `Tokenizer` lead to the byte-level round trip;
  `SentencePiece`, `SentenceRoundTrip` and `SentenceCondition` have the other path, what it gives back
  and exactly when that is the normalised text; `ArrayText` is the printed array form and its reader.
- The thread pool. `ThreadPool` is the monitor as atomic steps, with safety over all interleavings,
  freedom from deadlock and a bound on every run; `ParallelFor`, `MatMul` and `MatMulQ4` split rows
  over it.
- The packed kernels. `Division`, `Spans`, `Terms` and the `Packed` modules prove each fused kernel equal to
  dequantizing a row and taking the dot product, and each decoder the inverse of packing.
- Smaller cores: `GgufTable`, `ExpertCache`, `MoeRoute`, `Lora`.

Where the code and its documentation differ, the models follow the code:

- include/vg/speculative.h:13-14 speaks of one batched verification sweep; the code decodes proposal by
  proposal, and so does the model.
- include/vg/kv_cache.h:50-51 says a page is writable only while one sequence owns it. Fork and append
  share a partly filled last page and write no page data at all, so the model has shared tail pages.
- The radix invalidation takes a model and an adapter identity; the code ignores both and drops every
  entry.
- src/tokenizer.c:438-442 speaks of one prefix that decoding strips. The code prepends one to every stretch
  between control tokens and strips one, and so does the model.
- src/tokenizer.c:749-751 takes control markers to be ASCII. The code takes any control or user-defined
  token, and so does the model.

Some promises hold only under a condition, which is stated and proved in both directions; most come with
an input at which they fail:

- The pool's 32-bit task count: `ThreadPool.SubmitNeedsRoom`, and a full counter in
  `ThreadPool.WaitReturnsTooEarly`.
- The 32-bit sum in the range split: `ParallelFor.Split`.
- The SentencePiece round trip, which control tokens and a missing prefix can spoil:
  `SentenceCondition.RoundTrip`, and a text that gains a space in `SentenceCondition.GainsSpace`.
- Staying inside the buffer while encoding: `SentencePiece.StaysInsideLands`, and a truncated character in
  `SentencePiece.TruncatedSteps`.
- Layers of a KV page lying inside it: `KvStore.LayerInsidePage`, and a shape with overlapping layers in
  `KvStore.LayersShare`.
- Inserting into the prefix cache without losing the sequence inserted: `RadixCache.SourceLives`, and a
  state four calls away in `RadixCache.LookedUp`.
- The two expert routers naming the same experts: `MoeRoute.RoutersAgree`, and logits for which they do not in
  `MoeRoute.RoutersDiffer`.

Run `dafny verify dfyconfig.toml` in this directory.

## Model

| member | source | states |
|---|---|---|
| `TokenDist.DistIsDistribution` | src/speculative.c:12-33 | at every temperature the result is a probability law: no negative weight, total one |
| `TokenDist.GreedyArgMax` | src/speculative.c:14-19 | at temperature 0 the law is all on the first token with the largest logit, so the largest weight is that token's |
| `TokenDist.DistFromLogits` | src/speculative.c:12-33 | the loops fill the buffer with exactly that law |
| `TokenDist.DistIsSoftmax` | src/speculative.c:21-32 | above temperature 0 it is the one law whose probabilities stand to each other as the exponentials of the logits, each less the largest and divided by the temperature, for any positive exponential |
| `TokenDist.LikelierIsLarger` | src/speculative.c:21-32 | where the exponential grows, a token is at least as likely as another if and only if its logit is at least as large |
| `TokenDist.PickInterval` | src/speculative.c:76-84 | a draw r picks token x exactly when r lies in x's stretch of the running total, whose length is p[x]; the one draw 0 goes to token 0: the pick has law p |
| `TokenDist.SampleFrom` | src/speculative.c:76-84 | the scan reads one draw and returns the token whose stretch holds it |
| `TokenDist.ResidualLawIsDistribution` | src/speculative.c:46-74 | the normalised excess of target over draft is a law; where there is no excess it is the target's own |
| `TokenDist.PickResidualIsPick` | src/speculative.c:46-74 | scanning the unnormalised residual with a stretched draw picks the token the normalised law would, if and only if the draw is not 0, or nothing is left over, or token 0 has an excess |
| `TokenDist.SampleResidual` | src/speculative.c:46-74 | the three scans return that token and read a draw exactly when something is drawn |
| `DecoderGraph.Model.HoldsRewrite` | src/model_graph.c:851-862 | decoding once more a token that the cache holds in its place changes nothing, whatever longer history the cache holds |
| `DecoderGraph.Model.HoldsExtend` | src/model_graph.c:851-862 | decoding a token behind the accepted history, over whatever was left there, leaves the cache holding the history and that token |
| `DecoderGraph.Model.HoldsPrefix` | src/model_graph.c:872-895 | a cache that holds a longer history holds every prefix of it: a rejected tail is never read |
| `DecoderGraph.AfterAppend` | src/main.c:340-354 | accepting two runs of tokens one after the other is accepting them at once |
| `DecoderGraph.Graph.Decode` | src/model_graph.c:1490-1500 | a token or position out of range is refused and changes nothing; otherwise one slot is overwritten, and the logits depend on the slots up to it alone |
| `SpeculativeStep.DraftPhase` | src/speculative.c:117-132 | the draft loop leaves the proposals, the probability each was given, and a draft cache holding them |
| `SpeculativeStep.VerifyPhase` | src/speculative.c:138-178 | the verify loop writes exactly the specified outcome, for a draft graph that may be the target graph itself |
| `SpeculativeStep.Step` | src/speculative.c:86-182 | one step writes the specified window, at most the draft count, and leaves both caches holding the accepted history |
| `SpeculativeSpec.RememberedAt` | src/speculative.c:130-175 | the law re-derived at a rejection gives the proposal the probability it was drawn with |
| `SpeculativeSpec.DraftCountIsLargest` | src/speculative.c:94-97 | the number of proposals is the largest within 64, within the output and within what was asked for, 4 where nothing was |
| `SpeculativeGreedy.VerdictIsGreedy` | src/speculative.c:142-158 | whatever the proposals, the verify phase at temperature 0 writes a prefix of the target's greedy stream |
| `SpeculativeGreedy.GreedyWindow` | src/speculative.c:117-158 | a greedy window is 1 to n tokens of the target's greedy stream, and empty exactly when a graph refuses the input |
| `SpeculativeGreedy.SelfDraftAcceptsAll` | src/speculative.c:117-158 | a target that drafts for itself has every proposal accepted, up to the end of its context |
| `SpeculativeGreedy.StreamSplits` | src/main.c:340-354 | the greedy stream can be cut anywhere and continued from the cut |
| `SpeculativeRun.NextWindow` | src/main.c:340-353 | one turn of the driver keeps the stream greedy and both caches in step with it |
| `SpeculativeRun.Emit` | src/main.c:346-351 | printing stops at the quota or at the end token, and otherwise prints the whole window |
| `SpeculativeRun.Generate` | src/main.c:335-354 | chained windows print exactly the target's greedy stream for any draft model and any stale cache, and end only at the quota, at the end token or at a context's end, of which the target's last two places stay free |
| `ResidualIdentity.OneTokenLaw` | src/speculative.c:160-177 | accepting with min(1, p/q) and otherwise drawing from the residual gives every test function the mean the target law gives it |
| `ResidualIdentity.AcceptedMass` | src/speculative.c:160-163 | draft probability times acceptance is the smaller of the two laws, and the target is that plus the excess |
| `SpeculativeLaw.EnvOfIsLawful` | src/speculative.c:12-33 | the laws two models give under one temperature are probability laws, and the ones the sampler uses |
| `SpeculativeLaw.WindowRunsTree` | src/speculative.c:117-178 | on every tape of draws inside the unit interval a window, whatever came before it, is the run of its decision tree, draw by draw |
| `SpeculativeFair.WindowIsFair` | src/speculative.c:117-178 | over all draws, a window of any length keeps the mean of every quantity that target sampling keeps |
| `SpeculativeFair.SamplingKeepsTheLaw` | src/speculative.c:117-178 | a window completed by plain target sampling gives every test on the stream the target's mean |
| `SpeculativeFair.ChainKeepsTheLaw` | src/speculative.c:117-178 | so does any number of windows, each started where the one before it ended |
| `SpeculativeChain.RunThen` | src/speculative.c:117-178 | running one tree and then another where it ended is running the first, and then the second on the draws left over |
| `SpeculativeChain.ChainRun` | src/main.c:335-354 | c windows run one after another on one tape are the one tree of all of them, run, if each window is its tree |
| `SpeculativeChain.SpeculationRunsTheTree` | src/main.c:335-354 | for any two models of one vocabulary above temperature 0: the c windows that run are that tree, on every tape inside the unit interval |
| `SpeculativeChain.SpeculationKeepsTheTargetLaw` | src/speculative.c:86-182 | and over that tree, at any temperature, every test on the token stream has the mean plain target sampling gives it: speculation leaves the target distribution unchanged |
| `KvStore.PagesGrow` | src/kv_cache.c:124-127 | a token opens a page exactly when the pages so far are full, so a sequence has its length over the page size, rounded up |
| `KvStore.CountedRetain` | src/kv_cache.c:104-104 | retaining a page for one more sequence keeps every count equal to its owners |
| `KvStore.CountedDrop` | src/kv_cache.c:105-105 | dropping it does too, and the guard is never what keeps a count from going below zero |
| `KvStore.Open` | src/kv_cache.c:106-109 | a shape with a zero or a page size that wraps to zero is refused; otherwise an empty store of that shape and budget, 16384 pages a sequence if no limit is given |
| `KvStore.Store.FindVictim` | src/kv_cache.c:83-84 | the scan finds the oldest unreferenced page, or all pages are referenced |
| `KvStore.Store.EvictPages` | src/kv_cache.c:79-93 | eviction removes only unreferenced pages, oldest first, and stops within budget or with everything pinned |
| `KvStore.Store.NewPage` | src/kv_cache.c:94-103 | one page more with a fresh stamp, behind an eviction: exactly unreferenced pages up to some age went, what is left fits the budget or is pinned, and a page went only while the rest was over budget |
| `KvStore.Store.SequenceInit` | src/kv_cache.c:111-111 | a new empty sequence, nothing else changed |
| `KvStore.Store.Append` | src/kv_cache.c:123-129 | one token more on one sequence, or Range exactly at the page limit with nothing changed; a token that opens no page leaves every page as it was, one that does makes room as a new page must; counts, bytes and page numbers stay exact |
| `KvStore.Store.Fork` | src/kv_cache.c:130-138 | the fork has the prefix's tokens and shares the pages that hold it; every other sequence and every page's age is untouched |
| `KvStore.Store.DropPage` | src/kv_cache.c:105-105 | one reference less on one page, guarded at zero |
| `KvStore.Store.Close` | src/kv_cache.c:112-112 | the sequence is gone, its references are given back, pages stay stored at the ages they had |
| `KvStore.Store.Acquire` | src/kv_cache.c:141-148 | the page of the token becomes the newest; layer offset and size in 64-bit arithmetic; out-of-range layer or token refused |
| `KvStore.LayerInsidePage` | src/kv_cache.c:145-145 | every layer's stretch lies inside its page if and only if the layers together fit 64 bits, layer size and page size both wrapping |
| `KvStore.LayersShare` | src/kv_cache.c:106-109 | a shape that opens, whose layer 1 reaches over the end of its page and whose layer 2 is layer 0 |
| `KvStore.WrappedLayerFits` | src/kv_cache.c:145-145 | a shape whose single layer wraps together with its page and still fits it |
| `RadixTree.Descend` | src/kv_cache.c:165-165 | a stored string that goes on from a node's lies below one of its children |
| `RadixTree.SameEdge` | src/kv_cache.c:159-159 | two edges that continue towards one string are one edge: siblings keep distinct first tokens |
| `RadixTree.LeafOk` | src/kv_cache.c:173-173 | adding a leaf where no edge continues keeps the tree in shape and its string is new |
| `RadixTree.SplitOk` | src/kv_cache.c:173-173 | splitting an edge keeps the tree in shape, children and strings included |
| `RadixTree.SplitKeepsEntry` | src/kv_cache.c:173-173 | the split changes no string's entry: the snapshot goes down with its string |
| `RadixTree.Longest` | src/kv_cache.c:161-169 | the longest usable non-empty prefix, none longer being usable |
| `RadixCache.NoKeyInside` | src/kv_cache.c:165-165 | no string ends or branches off inside an edge |
| `RadixCache.LongestAtStop` | src/kv_cache.c:165-165 | where the walk stops, the best match met is the best of all |
| `RadixCache.SetEntry` | src/kv_cache.c:174-175 | setting a node's snapshot sets the entry of its string and no other |
| `RadixCache.Radix.ChildFind` | src/kv_cache.c:159-159 | the child whose edge starts with the token, or none does |
| `RadixCache.Radix.Common` | src/kv_cache.c:158-158 | the length of the longest common prefix |
| `RadixCache.Radix.Lookup` | src/kv_cache.c:161-169 | the longest usable inserted string that prefixes the query, with a live snapshot of exactly that prefix; counters in step |
| `RadixCache.Radix.SplitEdge` | src/kv_cache.c:173-173 | the part-way case of the walk leaves the stored map as it was |
| `RadixCache.Radix.Locate` | src/kv_cache.c:171-173 | the walk ends at the node of the string, grown if missing, and the stored map is unchanged |
| `RadixCache.Radix.MakeRoom` | src/kv_cache.c:172-174 | the walk, and the close of the snapshot that the string had: the stored map as it was, exactly that one sequence gone |
| `RadixCache.Radix.Insert` | src/kv_cache.c:170-176 | the map gains or replaces one entry, whose snapshot is fresh and holds the string; the replaced snapshot is closed and no other sequence changes; on every sequence still live after the close |
| `RadixCache.SourceLives` | src/kv_cache.c:174-175 | in every state the sequence to fork from is still live after the close if and only if it is not one of the cache's own snapshots inserted again at its own length |
| `RadixCache.LookedUp` | src/kv_cache.c:161-175 | four calls from a fresh store reach a state where it is not: what lookup hands out, inserted again at the length lookup reports |
| `RadixCache.Radix.InvalidateNode` | src/kv_cache.c:155-155 | the snapshots of the whole subtree are closed and forgotten, each of them once and while it is still open; nothing else changes |
| `RadixCache.Radix.Invalidate` | src/kv_cache.c:177-177 | the map becomes empty; exactly the snapshots are gone from the store |
| `TokenIndex.Index.constructor` | src/tokenizer.c:44-52 | the smallest power-of-two table of at least 16 cells and twice the keys, empty |
| `TokenIndex.Index.Insert` | src/tokenizer.c:54-59 | the next key goes to the first empty cell of its probe, which exists; the index then holds one key more |
| `TokenIndex.Index.Find` | src/tokenizer.c:164-174 | for any hash function the probe finds the first entry with the key, or none has it, and always ends |
| `TokenIndex.Index.FindBest` | src/tokenizer.c:527-543 | the scan of the whole cluster finds the lowest-ranked rule for the pair, as a linear search would |
| `TokenIndex.FirstMatch` | src/tokenizer.c:168-171 | the first match met on a probe is the first occurrence in the list |
| `TokenIndex.BestIsFirst` | src/tokenizer.c:533-541 | the best match of a cluster is the first occurrence in the list |
| `TokenIndex.BuildIndex` | src/tokenizer.c:270-274 | after inserting a list in order the index holds exactly that list |
| `ByteMap.TableUndoesIndex` | src/tokenizer.c:495-509 | the fallback table undoes the fallback index for every byte that has one |
| `ByteMap.ForwardIsCanonical` | src/tokenizer.c:487-522 | a byte printable in Latin-1 becomes the character of its own number, the others are numbered from U+0100 on in ascending order, each written as UTF-8 |
| `ByteMap.DecodeForwardAll` | src/tokenizer.c:515-522 | decoding undoes the byte map on every byte string |
| `ByteMap.DecodeChar` | src/tokenizer.c:836-861 | in front of any text, a character that stands for a byte decodes to that byte and every other character to itself |
| `ByteMap.LengthIsWhole` | src/tokenizer.c:837-842 | bytes are taken together as one character if and only if they are a lead byte and exactly the tail bytes it calls for; the byte ranges are written out |
| `ByteMap.DecodeAscii` | src/tokenizer.c:856-861 | ASCII text decodes to itself |
| `ByteMap.Measure` | src/tokenizer.c:830-865 | the counting pass returns the length of what the token decodes to |
| `ByteMap.DecodeText` | src/tokenizer.c:830-865 | the buffer takes the decoded bytes from the given place on, as many as leave room for the terminator; the whole length is returned, nothing before is touched |
| `Bpe.BestIsLeftmost` | src/tokenizer.c:592-601 | the pair merged is the leftmost of the lowest-ranked ones, or no adjacent pair has a rule |
| `Bpe.ApplyIsRounds` | src/tokenizer.c:589-623 | the merged word is what rounds of merging end in, each of which joins the leftmost of the lowest-ranked pairs while any adjacent pair has a rule |
| `Bpe.ApplyKeepsText` | src/tokenizer.c:589-623 | merging keeps the text, never adds pieces, and stops with no rule left for any adjacent pair |
| `Bpe.ApplyStaysIn` | src/tokenizer.c:589-623 | if the first pieces and all rule results are tokens, so are the final pieces |
| `Bpe.ApplyStretches` | src/tokenizer.c:589-623 | every final piece stands for a stretch of the word's bytes, and the stretches make up the word |
| `Bpe.BpeWord.Push` | src/tokenizer.c:558-584 | the word gains one piece at the end of its shared buffer |
| `Bpe.FindBestPair` | src/tokenizer.c:592-601 | the scan through the index finds the specified pair |
| `Bpe.JoinPair` | src/tokenizer.c:607-619 | one round joins that pair and copies the rest in order |
| `Bpe.ApplyWord` | src/tokenizer.c:589-623 | the loop ends with the fully merged word and never overfills its scratch buffer |
| `PreTokenizer.RunIsMaximal` | src/tokenizer.c:710-713 | a run is of one class and cannot be extended |
| `PreTokenizer.WordsAreText` | src/tokenizer.c:700-727 | the words, one after the other, are the text |
| `PreTokenizer.WordsEndWhere` | src/tokenizer.c:641-713 | a word ends between two bytes if and only if they are of different kinds, letters, digits, white space or others, and the first is not a space that leads the run behind it; the byte ranges are written out |
| `PreTokenizer.NextWord` | src/tokenizer.c:703-713 | the loops find the end of the word, leading space included |
| `ControlTokens.ControlIsLongest` | src/tokenizer.c:736-747 | no control token at the position is longer than the one matched |
| `ControlTokens.CutsAreText` | src/tokenizer.c:770-785 | control tokens and the stretches between them are the text |
| `ControlTokens.CutsAreLeftmost` | src/tokenizer.c:736-785 | a control token is taken at the first place where one stands, there the first of the longest, and none stands in what is left between |
| `ControlTokens.EndsInAll` | src/tokenizer.c:766-786 | the turns of the loop, from any point on, add exactly the ids of what is left to cut |
| `ControlTokens.MatchAdded` | src/tokenizer.c:736-747 | the scan finds the specified control token |
| `ByteLevel.BodyIsWords` | src/tokenizer.c:700-727 | a text's ids are the ids of its words, one word after the other |
| `ByteLevel.WordRoundTrip` | src/tokenizer.c:700-727 | a word's ids decode to the word |
| `ByteLevel.RoundTrip` | src/tokenizer.c:766-786 | decoding the ids of a text gives the text back, for every NUL-free byte string, when every byte's character and every rule's result is a token and control tokens are ASCII |
| `Tokenizer.EncodeIsShort` | src/tokenizer.c:479-484 | a text never has more ids than bytes, so four ids a byte and 64 more always fit |
| `Tokenizer.ByteTokenizer.FindToken` | src/tokenizer.c:627-632 | the piece's first vocabulary entry, or id 0 |
| `Tokenizer.ByteTokenizer.EmitWord` | src/tokenizer.c:627-635 | the pieces' ids follow what the buffer holds, as far as it reaches, and all are counted |
| `Tokenizer.ByteTokenizer.EncodeBody` | src/tokenizer.c:700-729 | the body's ids follow, word by word |
| `Tokenizer.ByteTokenizer.EncodeText` | src/tokenizer.c:766-790 | the id count and the buffer are those of the specified encoding |
| `Tokenizer.ByteTokenizer.DecodeSequence` | src/tokenizer.c:444-463 | the ids' texts decoded one after the other through one growing buffer, each measured first and none cut short |
| `Tokenizer.ByteTokenizer.EncodeDecode` | src/tokenizer.c:479-489 | the buffers pass on exactly the decoding of the encoding, for any vocabulary; with a complete one and ASCII control tokens that is the text |
| `SentencePiece.UnescapeEscape` | src/tokenizer.c:806-819 | turning U+2581 back to spaces undoes the escaping of text without U+2581 |
| `SentencePiece.UnescapeAppend` | src/tokenizer.c:813-819 | decoding token by token is decoding the whole, where tokens are whole characters |
| `SentencePiece.TakesToken` | src/tokenizer.c:672-692 | with every character a token, each turn takes a token and stops at a character's end |
| `SentencePiece.LongestIsLongest` | src/tokenizer.c:685-690 | no longer stretch within reach is a token |
| `SentencePiece.TurnTaken` | src/tokenizer.c:672-692 | one turn takes the first entry of the longest token that starts there, has a whole first character and is shorter than 512 bytes; without one, id 0 and one character |
| `SentencePiece.PutIsChar` | src/tokenizer.c:62-79 | every code point is written as one character whose lead byte tells its length, and U+2581 as the mark |
| `SentencePiece.GreedyDecodes` | src/tokenizer.c:672-693 | the tokens decode to what the normalised text decodes to |
| `SentencePiece.StretchTexts` | src/tokenizer.c:654-694 | one stretch comes back normalised, behind a space if a prefix is added |
| `SentencePiece.StaysInsideLands` | src/tokenizer.c:672-692 | the greedy loop never steps past the terminator if and only if the walk from lead byte to lead byte ends exactly at the end of the text |
| `SentencePiece.TruncatedSteps` | src/tokenizer.c:688-691 | a text that ends inside a character carries it past the terminator |
| `SentenceRoundTrip.CutsFit` | src/tokenizer.c:749-751 | control tokens made of whole characters cut a text only between characters |
| `SentenceRoundTrip.Decoded` | src/tokenizer.c:766-786 | exactly what comes back: the first stretch normalised, less a leading space that no prefix stands for; then every control token as it is and every later non-empty stretch normalised, behind one space if a prefix is added |
| `SentenceCondition.EvenIsEqual` | src/tokenizer.c:467-474 | two texts with the same bytes other than spaces are equal if and only if between any two such bytes, and at both ends, they have equally many spaces |
| `SentenceCondition.RoundTrip` | src/tokenizer.c:467-474 | the round trip gives the normalised text if and only if: with collapsing, after the first stretch as many spaces come back in every gap as normalising keeps; without, no stretch after a control token brings a prefix, and the first one does not lose a space |
| `SentenceCondition.RoundTripSolid` | src/tokenizer.c:766-786 | with collapsing and control tokens without spaces: if and only if every later stretch is empty, or starts with a space exactly when a prefix is added |
| `SentenceCondition.RoundTripPlain` | src/tokenizer.c:467-474 | with no control token in the text: if and only if a prefix is added, or spaces are collapsed, or the text does not start with a space |
| `SentenceCondition.GainsSpace` | src/tokenizer.c:749-764 | a text of one control token and one letter comes back with a space more |
| `SentencePiece.NormaliseText` | src/tokenizer.c:657-668 | the loop writes the prefix and the text with spaces collapsed and escaped |
| `SentencePiece.MatchLongest` | src/tokenizer.c:683-690 | the search finds the longest token and its first id |
| `SentencePiece.EncodeText` | src/tokenizer.c:670-693 | the greedy loop emits the specified ids on every text on which it stays inside the buffer |
| `SentenceRoundTrip.EncodeCuts` | src/tokenizer.c:766-790 | the loop over control tokens emits the specified ids, an empty stretch none; without control tokens the body takes the text whole |
| `SentenceRoundTrip.EncodeDecode` | src/tokenizer.c:479-489 | encoding and decoding yield exactly what is specified to come back |
| `SentencePiece.DecodeToken` | src/tokenizer.c:810-819 | one token's text with U+2581 as spaces |
| `SentencePiece.DecodeSequence` | src/tokenizer.c:444-474 | the texts in order, with the prefix stripped |
| `ArrayText.ScanEscaped` | src/tokenizer.c:105-143 | reading an escaped item stops at its own closing quote |
| `ArrayText.ParsePrinted` | src/gguf.c:145-178 | reading back a printed list gives the list, for every list of NUL-free strings |
| `ArrayText.EscapeBack` | src/tokenizer.c:82-136 | every character is read back from its escape: a letter, itself, four hexadecimal digits or two surrogates of four |
| `ArrayText.SkipsAll` | src/tokenizer.c:151-162 | the cursor skips commas, spaces, tabs and line ends, all that stand there and nothing else |
| `ArrayText.PrintStrings` | src/gguf.c:150-177 | the printer writes brackets, commas, quotes and escapes as specified |
| `ArrayText.ScanQuoted` | src/tokenizer.c:98-146 | the measuring pass counts, and the copying pass keeps, the same unescaped bytes |
| `ArrayText.ArrayNext` | src/tokenizer.c:151-162 | the next entry or the end; without advance the cursor stays |
| `ArrayText.LoadStrings` | src/tokenizer.c:242-267 | counting, then measuring and copying each entry, yields all entries |
| `GgufTable.HashFind` | src/gguf.c:107-117 | the probe ends at the key's cell, or at the first empty one if the key is absent |
| `GgufTable.Rehash` | src/gguf.c:127-129 | the table of twice the size holds the same map |
| `GgufTable.Table.Grow` | src/gguf.c:124-130 | after it fewer than three quarters of the cells are taken, and the map is the same |
| `GgufTable.Table.Insert` | src/gguf.c:118-134 | an absent key is added, a present one keeps its index; the load stays at most three quarters |
| `GgufTable.Table.Find` | src/gguf.c:298-301 | the lookup agrees with the map |
| `GgufTable.LoadTable` | src/gguf.c:254-261 | after inserting a list every key maps to its first place |
| `GgufTable.FindTensor` | src/gguf.c:296-306 | through the table or by a linear scan: the first entry with the name, or none |
| `ThreadPool.Pool.Look` | src/threadpool.c:62-66 | the head is taken, or the worker leaves or sleeps as the flags say |
| `ThreadPool.Pool.Finish` | src/threadpool.c:71-73 | the guarded decrement, and a broadcast exactly at zero |
| `ThreadPool.CountedKept` | src/threadpool.c:145-150 | in every step, submissions included, the count stays queued tasks plus taken ones not yet counted |
| `ThreadPool.OnceKept` | src/threadpool.c:59-77 | in every step each task is queued and unrun, in one worker's hands, or run once |
| `ThreadPool.AwakeKept` | src/threadpool.c:145-150 | no lost wake-up: while a worker sleeps there is an idle, awake worker for every queued task |
| `ThreadPool.WaitedKept` | src/threadpool.c:161-163 | a sleeping waiter has a pending task |
| `ThreadPool.ClosingKept` | src/threadpool.c:117-129 | after shutdown no worker sleeps, and a freed pool threw no task away |
| `ThreadPool.StepKeepsInv` | src/threadpool.c:59-165 | every step of every thread keeps all of that |
| `ThreadPool.PoolIsSafe` | src/threadpool.c:104-165 | in every interleaving no task runs twice, wait and destroy return only when all have run, nothing queued is freed, and the guard never hides an underflow |
| `ThreadPool.TakenInOrder` | src/threadpool.c:65-66 | tasks are taken in the order of submission |
| `ThreadPool.NoDeadlock` | src/threadpool.c:59-165 | while a task is pending or a caller is inside wait or destroy, some thread can step |
| `ThreadPool.MeasureFalls` | src/threadpool.c:59-165 | every step the pool takes by itself uses up a bound on the steps left |
| `ThreadPool.WaitReturns` | src/threadpool.c:154-165 | left to itself the pool stops, with every wait and destroy returned and every task run once |
| `ThreadPool.WaitInsideTask` | src/threadpool.c:154-165 | a wait called from a task's own body never returns: until that body ends its test finds a pending task, however the others go on |
| `ThreadPool.SubmitNeedsRoom` | src/threadpool.c:148-148 | a submission keeps the invariant if and only if the 32-bit count has room for it |
| `ThreadPool.WaitReturnsTooEarly` | src/threadpool.c:148-148 | without room, wait returns at once although no task has run |
| `ParallelFor.Split` | src/threadpool.c:182-201 | every item is in exactly one range if and only if the items plus the chunks fit the 32-bit sum; then there are no more ranges than chunks, and none is longer than the items over the chunks, rounded up |
| `ParallelFor.ShareReaches` | src/threadpool.c:189-189 | the rounded-up share reaches the item count and overshoots by less than one item a chunk |
| `MatMul.AnyScheduleIsSerial` | src/cpu_ops.c:533-557 | whatever the interleaving of the jobs' own stores, every row ends up with the value one row loop over all rows gives it |
| `MatMul.NoRowShared` | src/cpu_ops.c:526-531 | two jobs never write one row |
| `MatMulQ4.ProductQ4` | src/cpu_ops.c:537-557 | the Q4_0 kernel run over the ranges of the split: every interleaving of the stores its runs make leaves the output that one run over all rows makes |
| `MatMulQ4.ProductQ4K` | src/cpu_ops.c:537-557 | the same for the Q4_K kernel |
| `Spans.PlanesWhole` | src/cpu_ops.c:198-212 | summing planes side by side is summing the stretch they make up |
| `PackedTQ2.Dequantize` | src/quant.c:341-354 | the TQ2_0 decoder writes weight i of the block at place i |
| `PackedTQ2.RowDot` | src/cpu_ops.c:188-218 | the fused TQ2_0 kernel equals dequantizing the row and taking its dot product with x, for every row of whole blocks |
| `PackedTQ2.Rows` | src/cpu_ops.c:188-218 | rows r0 up to r1 get their product, no other entry changes |
| `PackedTQ1.Dequantize` | src/quant.c:308-338 | the TQ1_0 decoder writes weight i of the block at place i |
| `PackedTQ1.RowDot` | src/cpu_ops.c:265-317 | the fused TQ1_0 kernel equals dequantizing the row and taking its dot product with x, for every row of whole blocks |
| `PackedTQ1.Rows` | src/cpu_ops.c:265-317 | rows r0 up to r1 get their product, no other entry changes |
| `PackedQ1.Dequantize` | src/quant.c:357-367 | the Q1_0 decoder writes weight i of the block at place i |
| `PackedQ1.RowDot` | src/cpu_ops.c:319-348 | the fused Q1_0 kernel equals dequantizing the row and taking its dot product with x, for every row of whole blocks |
| `PackedQ1.Rows` | src/cpu_ops.c:319-348 | rows r0 up to r1 get their product, no other entry changes |
| `PackedQ2.Dequantize` | src/quant.c:370-380 | the Q2_0 decoder writes weight i of the block at place i |
| `PackedQ2.RowDot` | src/cpu_ops.c:350-373 | the fused Q2_0 kernel equals dequantizing the row and taking its dot product with x, for every row of whole blocks |
| `PackedQ2.Rows` | src/cpu_ops.c:350-373 | rows r0 up to r1 get their product, no other entry changes |
| `PackedQ6K.Dequantize` | src/quant.c:195-216 | the Q6_K decoder writes weight i of the block at place i |
| `PackedQ6K.RowDot` | src/cpu_ops.c:446-477 | the fused Q6_K kernel equals dequantizing the row and taking its dot product with x, for every row of whole blocks |
| `PackedQ6K.Rows` | src/cpu_ops.c:446-477 | rows r0 up to r1 get their product, no other entry changes |
| `PackedTQ2.PackedBack` | src/quant.c:341-354 | for any 256 codes from -1 to 2 and any scale, decoding the bytes that hold them, four in a byte and 32 apart, gives each code times the scale |
| `PackedTQ1.PackedBack` | src/quant.c:300-338 | for any 256 ternary codes and any scale, decoding the bytes that hold them, five digits in a byte as a fraction of 243, gives each code times the scale |
| `PackedQ1.PackedBack` | src/quant.c:357-367 | for any 128 signs and any scale, decoding the bytes that hold them, eight in a byte, gives the scale with each sign |
| `PackedQ2.PackedBack` | src/quant.c:370-380 | for any 64 codes from -1 to 2 and any scale, decoding the bytes that hold them, four in a byte, gives each code times the scale |
| `PackedQ6K.PackedBack` | src/quant.c:195-216 | for any 256 codes from -32 to 31, any 16 scales and any block scale, decoding the bytes that hold them, four bits in one byte and two in another, gives each code times its two scales |
| `PackedQ4.PackedBack` | src/quant.c:226-236 | for any 32 codes from -8 to 7 and any scale, decoding the bytes that hold them, two in a byte, gives each code times the scale |
| `PackedQ4K.PackedBack` | src/quant.c:91-173 | for any 256 codes from 0 to 15, eight 6-bit scales and eight 6-bit minima, decoding the bytes that hold them gives each code times its sub-block's scale, less its minimum |
| `PackedQ4K.ScalesBack` | src/quant.c:91-94 | the twelve bytes that hold eight 6-bit scales and eight 6-bit minima give each of them back |
| `PackedTQ2.BlockSum` | src/cpu_ops.c:198-213 | four chains over two 32-byte groups add up to the block's dot product |
| `PackedTQ1.BlockSum` | src/cpu_ops.c:272-312 | five interleaved planes, a narrow tail and the high bytes add up to the block's dot product |
| `PackedQ6K.HalfSum` | src/cpu_ops.c:456-471 | four interleaved planes of a half add its stretch to the accumulator |
| `PackedQ4.Dequantize` | src/quant.c:226-236 | the Q4_0 decoder writes low nibbles, then high ones, sixteen apart |
| `PackedQ4.KernelIsDequantizeThenDot` | src/cpu_ops.c:133-173 | over the reals the Q4_0 kernel's tree is the dot product of the dequantized row with x |
| `PackedQ4.TwoRows` | src/cpu_ops.c:137-155 | the interleaved pair yields for each row the tree of that row alone |
| `PackedQ4.Rows` | src/cpu_ops.c:133-173 | a row's tree is the same in a pair and in the tail, wherever the range starts; the stores are the rows in order, once each |
| `PackedQ4K.Dequantize` | src/quant.c:156-173 | the Q4_K decoder writes each sub-block with its own scale and minimum |
| `PackedQ4K.KernelIsDequantizeThenDot` | src/cpu_ops.c:386-444 | over the reals the Q4_K kernel's tree is the dot product of the dequantized row with x |
| `PackedQ4K.TwoRows` | src/cpu_ops.c:390-418 | the interleaved pair yields for each row the tree of that row alone |
| `PackedQ4K.Rows` | src/cpu_ops.c:386-444 | a row's tree is the same in a pair and in the tail, wherever the range starts; the stores are the rows in order, once each |
| `ExpertCache.StampsDistinct` | src/model_graph.c:193-209 | live slots have distinct stamps and memory |
| `ExpertCache.EvictKeeps` | src/model_graph.c:198-205 | an eviction spares every slot with fewer newer ones than the cache has others |
| `ExpertCache.Cache.constructor` | src/model_graph.c:166-171 | an empty cache of at least four slots |
| `ExpertCache.SliceIsExpert` | src/model_graph.c:211-249 | of a tensor that stacks its experts' matrices in whole blocks, the slice of an expert is that expert's matrix; there is none of an expert it does not hold |
| `ExpertCache.NoSlice` | src/model_graph.c:211-249 | a tensor of unknown layout, or a matrix smaller than one block, gives the format error |
| `ExpertCache.Cache.Find` | src/model_graph.c:186-191 | the first slot with the key, or none has it |
| `ExpertCache.Cache.Insert` | src/model_graph.c:193-209 | behind the others while there is room, then in place of the least recently used slot, all other slots untouched; slices with room behind them stay backed |
| `ExpertCache.Cache.Acquire` | src/model_graph.c:223-280 | the slice [e*stride, (e+1)*stride) of the named tensor or the source's error; a slot that serves is reused and becomes the newest, otherwise the slice is inserted; counters in step, earlier slices stay backed |
| `ExpertCache.Cache.GateUpDown` | src/model_graph.c:1045-1056 | the first error of the three, or after the down slice is fetched the gate and up slices are still backed |
| `ExpertCache.ThreeMoreAcquires` | src/model_graph.c:166-209 | a slice stays backed through any three further acquires |
| `MoeRoute.RouteBySorting` | src/model_graph.c:2027-2037 | the insertion sort's first entries are the best experts, best first, ties to the lower number |
| `MoeRoute.RouteBySelection` | src/model_graph.c:1270-1280 | the selection loops compute the specified picks |
| `MoeRoute.RankingMeans` | src/model_graph.c:2027-2037 | distinct experts in descending order, nobody left out scoring higher |
| `MoeRoute.RankingIsUnique` | src/model_graph.c:2027-2037 | there is only one such list |
| `MoeRoute.AboveFirst` | src/model_graph.c:1272-1280 | the first picks of the sort are exactly the experts above the start value |
| `MoeRoute.RoutersAgree` | src/model_graph.c:1270-1280 | the routers agree if and only if at least k logits are above the start value, or exactly k - 1 are and expert 0 is the best of the rest |
| `MoeRoute.RoutersDiffer` | src/model_graph.c:1272-1280 | below the start value they differ: of two such experts the sort names the better, the selection names expert 0 |
| `MoeRoute.AboveTheSentinel` | src/model_graph.c:1272-1280 | with all logits above the start value both routers name the same experts in the same order |
| `Lora.MergedIsDelta` | src/lora.c:220-269 | multiplying by the merged weight is multiplying by the weight and adding the scaled low-rank product, for all ranks and dimensions |
| `Lora.ApplyDelta` | src/lora.c:220-249 | y gains the scaled product; a target of another name or shape changes nothing |
| `Lora.Apply` | src/lora.c:251-269 | every weight gains its entry of the scaled product, or the error is the source's and nothing changes |

## Left out

- Vulkan backends, shaders and fused device paths: foreign calls and device memory.
- File reading, memory mapping, command-line programs, plugins and tracing.
- Rounding of floats, and the inner workings of exp, tanh and the rotary tables: laws are exact reals, exp is any table of positive values.
- The linear congruential generator: draws are a given tape; the law of a run is taken over ideal uniform draws, and a window is tied to its tree on draws other than exactly 0.
- Allocation failures and buffer growth, including the printer's size estimate at src/gguf.c:154.
- Sliding-window eviction of KV slots (src/model_graph.c:843-850): positions are those below the window.
- Spilling and faulting KV pages, page data, and the device tier's bytes: a spilled page leaves the table at once, and a tier change is not accounted.
- Closing the whole store or the whole radix cache: every object goes, nothing is left to state.
- Sequence and page handles are never reused, whereas the page array of src/kv_cache.c:90 and 99 moves under the pointers that sequences hold.
- RadixCache.Radix.Insert: asks that the sequence is still live after the close of line 174; what the original does when it forks from freed memory is not modelled, and `RadixCache.SourceLives` says exactly when that happens.
- DecoderGraph.Graph.Decode: models the forward pass as an arbitrary function of the cached slots and the token; attention, norms and experts inside it are not modelled.
- SpeculativeStep.Step: assumes both graphs and the output buffer are there; the null checks at src/speculative.c:88-91 other than the vocabulary sizes are left out.
- The tokenizer's metadata keys, scores and the check for fallback characters: long chains of single branches.
- ByteLevel.RoundTrip: asks for a complete vocabulary and ASCII control tokens; with missing pieces id 0 is emitted and the text is lost, as the source says.
- SentencePiece.EncodeText: asks that the loop stays inside the buffer, which `SentencePiece.StaysInsideLands` reads off the text; what lies behind the terminator is not modelled.
- SentenceCondition.RoundTrip: about texts of whole characters without U+2581, all of them tokens unless they are spaces.
- SentencePiece.DecodeSequence: yields the bytes; measuring and growing the buffer are modelled for the byte-level path, in `Tokenizer.ByteTokenizer.DecodeSequence`.
- TokenIndex.Index.Find: takes the masked hash as a remainder, the capacity being a power of two; the hash function is arbitrary.
- ThreadPool.PoolIsSafe: covers the POSIX pool; the Windows variant with its semaphore is left out, and clients neither submit nor wait once destroy has been called.
- ThreadPool.WaitReturns: about waits of clients; a task may submit but not wait, since a wait from a task's body never returns (`ThreadPool.WaitInsideTask`).
- Two kinds of accesses to one float buffer from several threads are interleaved row by row; memory ordering below that is not modelled.
- The Q5, Q8, Q2_K, Q3_K and IQ4 layouts, the plain float rows and the generic row kernel: the same shape as what is here, or easier.
- PackedTQ2.RowDot: works over exact reals, like the other kernels that take rows one at a time; only the two that pair rows are kept as trees of operations.
- PackedTQ1.RowDot: uses the decoding table through its formula, not its 1280 entries.
- ExpertCache.Cache.Acquire: pinned leases and private copies are one notion, memory that a slot keeps alive; counts are unbounded.
- Lora.ApplyDelta: a target with both halves loaded; name resolution with and without the weight suffix is a flag.
- MoeRoute.RouteBySorting: asks that no more experts are used than there are, as src/model_graph.c:468 sees to; the router projection and the softmax over the chosen logits are not modelled.
- Exact lease counting in src/tensor_source.c, the model probe and the metadata parser.
