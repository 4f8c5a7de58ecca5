# Verified models of docopt, FakeIt and Pico-Sketch

A Dafny 4.11 project that models the algorithmic cores of this repository and proves what they promise.
`dafny verify dfyconfig.toml` checks all of it.

- **docopt**, the command line parser, in C++ (`xsrc/docopt-cpp`) and Python (`scripts/docopt`).
  `Expansion` proves that the two different loops that expand a pattern tree into leaf-only alternatives
  terminate and compute one denotation, whatever branch each pop expands. `Fix` proves that a leaf gets an
  accumulating value exactly when it can occur twice in one alternative, a maximum computed there without
  the exponential expansion.
  `Matching` is the greedy matcher seen through tokens: conservation on every channel (the positionals are one
  channel, the options of each name another) and dependence on channels only. `MatchLanguage` proves it sound
  against a declarative language, `MatchCompleteness` says when it is complete.
  `MatchStore` is the matcher with its shared, mutable leaves; `MatchRefinement` proves that the sharing cannot
  influence verdict or leftovers. `MatchEntries` and `MatchTotals` say for every pattern which names are collected
  and by whom. `MatchAttempts` and `MatchValues` say for every pattern what counters and lists hold: they show what
  branches did that were given up. `MatchResults` says exactly when they hold what they should, `MatchSteady` on
  which patterns that is so for every argv, `MatchAlternatives` what it comes to for an option in several lines of a
  usage or in a group that is given up, and `MatchExamples` has four usages on which it is not so: counts that are
  too high or too low, and lists with words that argv does not have. `MatchAccumulate` treats patterns that never
  discard a take, on values. `MatchMarking` connects marking with matching. `Matcher` holds the loops as they run.
  `UsageParsing`, `ArgvParsing` and `OptionParsing` are the parsers, `TokenParsers` the parsers as they run
  over one token stream, `UsageMatching` says of every usage text whether its pattern can be matched.
  `ArgvPrinting` and `UsageOptions` write options down as a user does and prove that they are parsed back, and which
  command lines are refused. `Preparing` fills in `[options]`, `UsageLanguage` says what that adds to the language of
  a usage. `Docopt` puts all of it together, from tokens to the dictionary, and `Dictionary` says what the dictionary
  has for an element of the usage, with what argv has for it.
- **FakeIt** (`src/Catch/fakeit.hpp`). `SequenceVerification` proves that the greedy count of pattern
  occurrences in a trace is the maximum; `ActionQueue` proves that a stub follows its schedule under any mix
  of appends and calls.
- **Pico-Sketch** (`projects/pico-sketch`). `Canvas`, `FrameBuffer` and `Sketch` prove that the cursor leaves
  no trace on the canvas over any sequence of events; `LogicalButtons` counts and names the key events of
  every press.
- **AsyncOpenClose** (`src/Catch/helpers.h`). A two-thread semaphore handshake over all interleavings.

Loops and objects of the sources are methods and classes here, each proved equal to a function, and the
properties are lemmas about those functions. A list of shared pointers is a list of handles into a heap of
leaves, so that what is written through one pointer is seen through all. A pattern's hash is taken to be the
pattern: no collisions. FakeIt's matchers are an arbitrary relation between matchers and invocations, of
which only the pairs at hand matter, so it is a set of pairs. The graphics library is taken to paint the part
of a rectangle that lies in the display and nothing else, and colours are kept as RGB triples.

Where the code differs from its documentation the model follows the code: `LogicalButtons.h` names A+B+Y for
the clear key, the mask table has A+B+X.

## Model

| member | source | states |
|---|---|---|
| Expansion.Transform | xsrc/docopt-cpp/docopt_private.h:337-393 | the C++ queue loop terminates and returns leaf-only groups whose multiset of leaf multisets is the recursive denotation |
| Expansion.PickFirstBranch | xsrc/docopt-cpp/docopt_private.h:349-353 | the first branch of a group, or none |
| Expansion.EitherForm | scripts/docopt/docopt.py:71-104 | the Python loop, with its priority by node type, terminates and returns the same denotation |
| Expansion.PickByPriority | scripts/docopt/docopt.py:80-102 | the first `Either` of a group, without one the first `Required`, then `Optional`, the options shortcut, `OneOrMore`, or none |
| Expansion.ExpandBothWays | scripts/docopt/docopt.py:71-104 | both implementations give the same alternatives, as a multiset, for every tree |
| Expansion.ExpandPreserves | xsrc/docopt-cpp/docopt_private.h:360-389 | expanding any branch of a group, moved to its front, keeps the alternatives of the group |
| Expansion.ExpandShrinks | xsrc/docopt-cpp/docopt_private.h:344-390 | the groups that replace a group weigh less than it, summing two to the power of their weights |
| Expansion.RunKeeps | xsrc/docopt-cpp/docopt_private.h:344-390 | every run of the queue, whatever branch each pop picks, keeps the meaning and is no longer than the work it started with |
| Expansion.RunsConfluent | xsrc/docopt-cpp/docopt_private.h:344-390 | two complete runs with different choices end with the same alternatives |
| Fix.MaxCountIsMax | xsrc/docopt-cpp/docopt_private.h:395-403 | direct recursion over the tree gives the maximum multiplicity of a leaf over all alternatives, and says when there is no alternative |
| Fix.RepeatsExpanded | xsrc/docopt-cpp/docopt_private.h:397-403 | a leaf occurs twice in some expanded group exactly when the direct maximum is at least two |
| Fix.Canonical | xsrc/docopt-cpp/docopt_private.h:194-199 | an equal leaf already seen is reused, a new one is entered, and the set stays free of duplicates |
| Fix.FixIdentities | xsrc/docopt-cpp/docopt_private.h:187-201 | the tree keeps the leaves it stands for and equal leaves become one object |
| Fix.PatternTree.MarkGroup | xsrc/docopt-cpp/docopt_private.h:398-434 | in one group, exactly the leaves that occur more than once change |
| Fix.PatternTree.FixRepeatingArguments | xsrc/docopt-cpp/docopt_private.h:395-436 | over all groups, a leaf object changes exactly when it can occur twice in one alternative |
| Fix.PatternTree.Fix | xsrc/docopt-cpp/docopt_private.h:147-152 | after both passes equal leaves are one object, every leaf is as `AccumulatesIffRepeats` says for its maximum multiplicity in the original tree, and the tree is the original one with just those leaves marked |
| Fix.AccumulatesIffRepeats | xsrc/docopt-cpp/docopt_private.h:408-433 | of the leaves that repeat, a command counts from zero, and so does an option without an argument; an argument gets the list of the words of its default, and so does an option with one; other leaves are as before; so what accumulates is what repeats |
| Fix.Split | xsrc/docopt-cpp/docopt_util.h:50-67 | words are not empty and hold no white space |
| Fix.SpacesAre | xsrc/docopt-cpp/docopt_util.h:52 | what parts words is the blank and the five control characters from the tab on |
| Fix.SplitOfSpaced | xsrc/docopt-cpp/docopt_util.h:55-64 | words put together with any such gaps are split into the same words again |
| Fix.SpacedOfSplit | xsrc/docopt-cpp/docopt_util.h:55-64 | every text is its words with gaps of white space around them, none of the inner gaps empty |
| Matching.Match | xsrc/docopt-cpp/docopt_private.h:591-672 | taken and left tokens add up to those given in number; a failure takes nothing, and what takes nothing leaves everything as it was |
| Matching.FirstMin | xsrc/docopt-cpp/docopt_private.h:661-663 | the first of the smallest outcomes |
| Matching.MatchConserves | xsrc/docopt-cpp/docopt_private.h:438-445 | what is left is a subsequence, and on every channel the taken tokens in order followed by the ones left are the ones given |
| Matching.MatchSeesChannels | xsrc/docopt-cpp/docopt_private.h:438-672 | argv lists that agree on every channel get the same verdict, the same takes by the same leaves and leftovers that agree on every channel, for patterns whose options have names |
| MatchLanguage.MatchSound | xsrc/docopt-cpp/docopt_private.h:487-672 | what a pattern takes when it matches is a word of its declarative language; the converse is in `MatchCompleteness` |
| MatchLanguage.MatchTakesWord | xsrc/docopt-cpp/docopt_private.h:591-672 | the taken positionals are a prefix of those given and the taken options a part of them |
| MatchLanguage.AcceptedIsInLanguage | xsrc/docopt-cpp/docopt.cpp:636-651 | an accepted argv is, as a whole, a word of the usage pattern |
| MatchLanguage.OneOrMoreIsMaximal | xsrc/docopt-cpp/docopt_private.h:607-643 | after a repetition, on tokens, one more match of its child fails or takes nothing |
| MatchCompleteness.Completes | xsrc/docopt-cpp/docopt_private.h:591-672 | in an orderly pattern taking as much as possible is never wrong: from a word of the pattern and of what follows it, a match leaves a word of what follows |
| MatchCompleteness.OrderlyAcceptsItsLanguage | xsrc/docopt-cpp/docopt_private.h:591-672 | an orderly pattern accepts exactly the words of its language; commands that differ do not get in each other's way, and alternatives may stand where nothing follows, so usages of several lines are among them |
| MatchCompleteness.InOrderIsComplete | xsrc/docopt-cpp/docopt_private.h:591-643 | a flat pattern accepts exactly the words of its language if behind every optional or repeated item, on the channel of each of its leaves, the first item that must take a token has no use for what that leaf takes |
| MatchCompleteness.CompleteIffInOrder | xsrc/docopt-cpp/docopt_private.h:591-643 | a flat pattern, with or without commands, accepts exactly the words of its language if and only if it is in that order |
| MatchCompleteness.TemptedStarves | xsrc/docopt-cpp/docopt_private.h:591-643 | a shortest word of which an optional or repeated item can take the token of a later one is rejected |
| MatchCompleteness.OptionalBeforeRequired | xsrc/docopt-cpp/docopt_private.h:591-605 | `[<a>] <b>` rejects every single positional, which is a word of it |
| MatchStore.MatchS | xsrc/docopt-cpp/docopt_private.h:591-672 | with shared leaves, for every pattern: a failure restores both lists and a success never lengthens what is left, so every loop ends |
| MatchStore.MatchLeaf | xsrc/docopt-cpp/docopt_private.h:438-445 | a matched leaf removes one token, a failed one changes nothing |
| MatchRefinement.MatchRefines | xsrc/docopt-cpp/docopt_private.h:438-672 | verdict and leftovers with shared leaves are those of the token-level matcher, and positionals in argv are never written |
| MatchRefinement.MatchSSeesChannels | xsrc/docopt-cpp/docopt_private.h:438-672 | verdict and leftovers depend on the channels only, whatever is collected and despite values written in place |
| MatchRefinement.MatchSLeavesSubsequence | xsrc/docopt-cpp/docopt_private.h:438-445 | a failed match leaves the pointers untouched, a successful one a subsequence of them |
| MatchRefinement.RepetitionIsMaximal | xsrc/docopt-cpp/docopt_private.h:607-643 | after a repetition with shared leaves one more match of its child fails or takes nothing |
| MatchAccumulate.LinearTracks | xsrc/docopt-cpp/docopt_private.h:591-643 | on patterns that never discard a take, the collected leaves are what entering the takes by value gives |
| MatchEntries.MatchRecords | xsrc/docopt-cpp/docopt_private.h:438-484 | for every pattern: `collected` grows at its end by the names of the takes, in order, once for a leaf that accumulates; only leaves in the two lists are written |
| MatchTotals.MatchSpares | xsrc/docopt-cpp/docopt_private.h:455-480 | no match, given up or not, writes a shared leaf whose name has neither counter nor list in the pattern |
| MatchTotals.MatchByLeaves | xsrc/docopt-cpp/docopt_private.h:487-521 | every take is by a leaf of the pattern, of a token on the channel of that leaf |
| MatchAttempts.MatchWrites | xsrc/docopt-cpp/docopt_private.h:438-484 | for every pattern, matched or not: what is written for a leaf, kept or given up, is what its attempts write, into one shared leaf; an attempt that finds no entry starts a counter, but not a list, afresh |
| MatchValues.AttemptsFair | xsrc/docopt-cpp/docopt_private.h:438-521 | the takes that are kept are among the attempts in order, and the first attempt finds no entry |
| MatchValues.EntryHolds | xsrc/docopt-cpp/docopt_private.h:447-484 | for every pattern: the counter of a leaf holds its attempts since the last that found no entry, its list the first word and the words of all attempts that found an entry, kept or given up |
| MatchResults.EntriesOfName | xsrc/docopt-cpp/docopt_private.h:447-484 | for every pattern: a leaf with counter or list, the only one of its name, has one entry if it took something, none otherwise |
| MatchResults.ExactIff | xsrc/docopt-cpp/docopt_private.h:447-484 | for every pattern: an entry holds the number of takes, or their words in order, if and only if nothing that was given up shows in it; for lists with one word per token |
| MatchResults.TakesInArgvOrder | xsrc/docopt-cpp/docopt_private.h:487-502 | in every match of every pattern, what one leaf takes is in the order of argv |
| MatchResults.HoldsItsOccurrences | xsrc/docopt-cpp/docopt_private.h:447-484 | when all of argv is matched, the counter of an option is the number of times argv has it, and its list the words argv has for it, under the same condition; so for the only positional |
| MatchSteady.SteadyAttempts | xsrc/docopt-cpp/docopt_private.h:591-643 | a part with the leaf in no alternative, and in no part that is skipped or ends a repetition after the leaf has taken something, attempts just what it keeps |
| MatchSteady.OnceIsClear | xsrc/docopt-cpp/docopt_private.h:591-672 | a condition on the pattern alone: nothing shows, on any argv, also if an option is in one alternative of an `Either` and nowhere else, or a positional in any of them |
| MatchSteady.AccumulatesExactly | xsrc/docopt-cpp/docopt_private.h:447-484 | so the entry of such a leaf is exact |
| MatchSteady.LinearIsSteady | xsrc/docopt-cpp/docopt_private.h:591-643 | patterns that never discard a take are steady for every leaf |
| MatchAlternatives.CountExactIff | xsrc/docopt-cpp/docopt_private.h:645-672 | a flag in several lines of a usage counts what the last line that came to take it took, matched or not; so the count is exact if and only if that is what the chosen line took, or the flag is not taken |
| MatchAlternatives.ListHears | xsrc/docopt-cpp/docopt_private.h:463-480 | the list of an option in several lines holds the words of its first token and, line by line, of what each line takes after its first take |
| MatchAlternatives.ListExactIff | xsrc/docopt-cpp/docopt_private.h:463-480 | it is exact if and only if the option is not taken, or the lines take it again, all in all, no more often than the chosen one does |
| MatchAlternatives.WasteExactIff | xsrc/docopt-cpp/docopt_private.h:455-460 | a flag in no alternative counts its takes and those that given-up parts made after the first one that was kept; so the count is exact if and only if there are none of those, or the flag is not taken |
| MatchExamples.DiscardedBranchStillCounts | xsrc/docopt-cpp/docopt_private.h:455-457 | the usage `-v [(-v <x>)] [-v]` on `-v -v` counts three: a branch that is given up has already raised the shared counter |
| MatchExamples.LaterBranchRestartsCount | xsrc/docopt-cpp/docopt_private.h:452-454 | the alternatives `-v -v` and `-v <x>` on `-v -v` count one: the second fails, but has started the shared counter again |
| MatchExamples.LaterLineAddsToList | xsrc/docopt-cpp/docopt_private.h:465-466 | the alternatives `-o V -o V` and `-o V -o V <x>` on `-o A -o B` end with A, B, B: the second starts from the list that the first has left |
| MatchExamples.GivenUpGroupStaysInList | xsrc/docopt-cpp/docopt_private.h:465-466 | the usage `[(-o V -o V <x>)] [-o V]...` on `-o A -o B` ends with A, B, B too |
| MatchMarking.TakenAtMostOnce | xsrc/docopt-cpp/docopt_private.h:395-403 | a leaf that cannot occur twice in one alternative is taken at most once by every match |
| MatchMarking.FixedIsMarked | xsrc/docopt-cpp/docopt_private.h:147-152 | in a pattern that has been fixed, every leaf that repeats has a counter or a list |
| MatchMarking.TimesCollected | xsrc/docopt-cpp/docopt_private.h:482-484 | for every pattern, with any number of definitions of a name: it is collected once for each take without counter or list, and once more if its first take has one |
| MatchMarking.NoNameTwice | xsrc/docopt-cpp/docopt.cpp:636-648 | in a fixed pattern with one definition per name, no name is collected twice |
| MatchMarking.MatchReports | xsrc/docopt-cpp/docopt_private.h:482-521 | for every pattern: a leaf without counter or list, the only one of its name, reports for each token it took, in order, `true` if it is a command and else the value that argv has there, whatever branches were given up |
| Matcher.LeafHeap.FindByName | xsrc/docopt-cpp/docopt_private.h:447-449 | the first leaf of a name, or none |
| Matcher.LeafHeap.FindArgument | xsrc/docopt-cpp/docopt_private.h:487-502 | the first positional, or none |
| Matcher.LeafHeap.MatchOneLeaf | xsrc/docopt-cpp/docopt_private.h:438-521 | leaf matching on shared leaves gives the verdict, lists and heap of `MatchStore` |
| Matcher.LeafHeap.CollectOne | xsrc/docopt-cpp/docopt_private.h:447-484 | the reported leaf is entered, or added to the entry of its name, as `MatchStore` says |
| Matcher.LeafHeap.MatchRequired | xsrc/docopt-cpp/docopt_private.h:591-605 | the loop over required children gives the verdict, lists and heap of `MatchStore` |
| Matcher.LeafHeap.MatchOptional | xsrc/docopt-cpp/docopt_private.h:299-304 | the loop over optional children gives the verdict, lists and heap of `MatchStore` |
| Matcher.LeafHeap.MatchOneOrMore | xsrc/docopt-cpp/docopt_private.h:607-643 | the repetition loop with its flags terminates and gives the verdict, lists and heap of `MatchStore` |
| Matcher.LeafHeap.MatchEither | xsrc/docopt-cpp/docopt_private.h:645-672 | the loop over alternatives, which keeps every outcome and then takes the first smallest, gives the verdict, lists and heap of `MatchStore` |
| Matcher.LeafHeap.Match | xsrc/docopt-cpp/docopt_private.h:85-86 | any pattern matched in place gives the verdict, lists and heap of `MatchStore` |
| Matcher.MinElement | xsrc/docopt-cpp/docopt_private.h:661-663 | the first outcome with the fewest tokens left |
| OptionParsing.ParseShortsLocal | xsrc/docopt-cpp/docopt.cpp:284-346 | a stack of short options looks at no token beyond those it takes |
| OptionParsing.ParseLongLocal | xsrc/docopt-cpp/docopt.cpp:212-282 | a long option looks at no token beyond those it takes |
| ArgvParsing.ExplodeStack | xsrc/docopt-cpp/docopt.cpp:296-343 | spelling out a stack `-abc` or `-oVALUE` token by token changes neither the result nor the option table nor the error, if no flag is a dash and no value is `--` |
| ArgvParsing.SplitValue | xsrc/docopt-cpp/docopt.cpp:322-336 | a value attached to a short option, other than `--`, may be the next token |
| ArgvParsing.SplitLongValue | xsrc/docopt-cpp/docopt.cpp:265-274 | `--name=value` and `--name value` parse alike for a name that fits one option, which takes an argument, and a value neither empty nor `--` |
| ArgvParsing.Abbreviation | xsrc/docopt-cpp/docopt.cpp:225-240 | a prefix that is no long name itself and begins only one of them parses as that name, with or without `=value` |
| ArgvParsing.ParseAfterHead | xsrc/docopt-cpp/docopt.cpp:499-521 | after a part that is parsed completely the line goes on as if it started there with the table reached |
| ArgvParsing.ExplodeAnywhere | xsrc/docopt-cpp/docopt.cpp:489-524 | stacks may be spelled out anywhere on the command line where they are read as stacks |
| ArgvParsing.ParseArgvLeaves | xsrc/docopt-cpp/docopt.cpp:498-523 | whatever is parsed, argv becomes nameless positionals, each one word, and options with an argument, or `true` if they take none; `ArgvPrinting` says which |
| ArgvPrinting.PrintedParses | xsrc/docopt-cpp/docopt.cpp:489-524 | what is typed is what is parsed: words, flags, and options with their value as `-oV`, `-o V`, `--name=V` or `--name V`, long names abbreviated or not, give their leaves in order with just those values, and leave the table as it was; from `--` on, or from the first word if options come first, every token, `--` included, is a positional |
| ArgvPrinting.UnknownShort | xsrc/docopt-cpp/docopt.cpp:311-318 | an unknown short option is a flag that is set, and joins the table as one that is not |
| ArgvPrinting.UnknownLong | xsrc/docopt-cpp/docopt.cpp:249-257 | an unknown long option too; with `=value` it has that value, and takes one from there on |
| ArgvPrinting.FaultRefused | xsrc/docopt-cpp/docopt.cpp:244-330 | a command line is refused at the first option that fits several descriptions, is given a value that it does not take, or lacks the one that it takes |
| UsageOptions.OptionAtom | xsrc/docopt-cpp/docopt.cpp:384-387 | a described option in a usage text, however it is spelled with its argument, is parsed to what is described, and the table stays |
| UsageOptions.NewShortAtom | xsrc/docopt-cpp/docopt.cpp:311-318 | an option that is not described is a flag that is not set, and joins the table |
| UsageOptions.NewLongAtom | xsrc/docopt-cpp/docopt.cpp:249-257 | a long one too, and it takes an argument if it has one |
| UsageParsing.WordIs | xsrc/docopt-cpp/docopt.cpp:388-392 | any other token of a usage text is an argument if it is in angle brackets or all capital letters, and a command otherwise; dashes on their own are commands |
| UsageParsing.ItemsBack | xsrc/docopt-cpp/docopt.cpp:397-419 | parsing what canonical items in a row print to gives them back and leaves the rest untouched |
| UsageParsing.SeqCanonical | xsrc/docopt-cpp/docopt.cpp:397-419 | a sequence without options parses to canonical items only, up to a bracket, a bar or the end |
| UsageParsing.ExprBack | xsrc/docopt-cpp/docopt.cpp:350-456 | parsing what a canonical expression prints to gives it back and leaves the rest untouched |
| UsageParsing.ExprCanonical | xsrc/docopt-cpp/docopt.cpp:350-456 | tokens without options parse to canonical trees only, and leave the option table alone |
| UsageParsing.CanonicalIsParsed | xsrc/docopt-cpp/docopt.cpp:350-456 | a list of trees is what some usage text without options parses to if and only if it is canonical |
| UsageMatching.UsageMatchesIff | xsrc/docopt-cpp/docopt_private.h:607-609 | for every usage text that parses: all options of its pattern have names, no `Either` is empty, and the one-child assertion is never violated if and only if no stack of short options, with the value it may take, is followed by an ellipsis |
| UsageMatching.AtomIsSingle | xsrc/docopt-cpp/docopt.cpp:384-387 | an atom is one tree exactly when it is not a stack of short options |
| UsageMatching.ShortsKeepTable | xsrc/docopt-cpp/docopt.cpp:296-343 | a stack changes no answer to the question which short options take an argument |
| TokenParsers.Tokens.Pop | xsrc/docopt-cpp/docopt.cpp:136-138 | takes the current token, or throws out of range when there is none |
| TokenParsers.TakeValue | xsrc/docopt-cpp/docopt.cpp:322-330 | the next token as a value; an option error if there is none or it is `--` |
| TokenParsers.ParseShortAt | xsrc/docopt-cpp/docopt.cpp:296-343 | one option of a stack takes and returns what `ParseShorts` does, and raises its errors |
| TokenParsers.ParseShortTokens | xsrc/docopt-cpp/docopt.cpp:284-346 | the loop over the characters of a stack takes and returns what `ParseShort` does, and raises its errors |
| TokenParsers.ParseLongToken | xsrc/docopt-cpp/docopt.cpp:212-282 | a long option takes and returns what `ParseLong` does, and raises its errors |
| TokenParsers.ParseArgvFront | xsrc/docopt-cpp/docopt.cpp:499-521 | one round of the loop over argv is one step of `ParseArgv` |
| TokenParsers.ParseArgvTokens | xsrc/docopt-cpp/docopt.cpp:489-524 | the loop over argv returns what `ParseArgv` does, and raises its errors |
| TokenParsers.RestAsArguments | xsrc/docopt-cpp/docopt.cpp:502-506 | all remaining tokens become positionals |
| TokenParsers.ParseAtomTokens | xsrc/docopt-cpp/docopt.cpp:350-395 | an atom takes and returns what `ParseAtom` does, and raises its errors |
| TokenParsers.ParseSeqTokens | xsrc/docopt-cpp/docopt.cpp:397-419 | the loop over a sequence takes and returns what `ParseSeq` does, and raises its errors |
| TokenParsers.ParseExprTokens | xsrc/docopt-cpp/docopt.cpp:437-456 | the loop over alternatives takes and returns what `ParseExpr` does, and raises its errors |
| Preparing.Unmentioned | xsrc/docopt-cpp/docopt.cpp:582-599 | the documented options that the usage does not mention, all of them and each once |
| Preparing.PreparedFits | xsrc/docopt-cpp/docopt.cpp:569-609 | every usage text without a repeated stack gives, with its options filled in and after `fix`, a pattern that the matcher can be given |
| Preparing.PreparedLeaves | xsrc/docopt-cpp/docopt.cpp:586-605 | the leaves of the prepared pattern are those of the usage, and all described options if it has a shortcut, each as `fix` leaves it; an option behind the shortcut repeats just if the shortcut does |
| Preparing.PreparedAsIs | xsrc/docopt-cpp/docopt.cpp:586-605 | a usage without a shortcut is left to `fix` |
| UsageLanguage.PreparedLanguage | xsrc/docopt-cpp/docopt.cpp:586-605 | the words of the prepared pattern are those of the usage text, where a shortcut stands for the words without positionals in which each described option that the usage does not mention occurs at most once; `fix` changes no word |
| Docopt.StartIsProper | xsrc/docopt-cpp/docopt.cpp:627-637 | what `parse_argv` makes is fit to be matched |
| Docopt.ArgvIsWords | xsrc/docopt-cpp/docopt.cpp:322-340 | so every token that a positional can take is one word, and every token that an option can take if all that argv has under its name take an argument |
| Docopt.Prepare | xsrc/docopt-cpp/docopt.cpp:586-637 | filling in the options and fixing the tree, on shared leaves, gives the pattern that the rows of `Preparing` and `UsageLanguage` speak of |
| Docopt.SetValues | xsrc/docopt-cpp/docopt.cpp:641-648 | the last leaf of a name gives its value; other names keep theirs |
| Docopt.DictionaryAnswers | xsrc/docopt-cpp/docopt.cpp:638-650 | the keys are the names of the pattern; a leaf that took nothing has its default; one that does not repeat took one token and has `true` if it is a command, else the value that argv has there; one that repeats has what `EntryHolds` says, and if nothing shows that was given up the number of its tokens or the texts that argv has there, in order |
| Docopt.DictionaryInTurn | xsrc/docopt-cpp/docopt.cpp:638-650 | with several definitions of a name, for patterns that never discard a take: the dictionary is the defaults, then the entries made take by take |
| Docopt.MatchArgv | xsrc/docopt-cpp/docopt.cpp:636-658 | a dictionary if and only if the pattern matches with nothing left, with the values of the two rows above, and the two other errors; then argv is a word of the pattern, and for an orderly pattern every word gets a dictionary |
| Docopt.DocoptParse | xsrc/docopt-cpp/docopt.cpp:613-658 | from usage and argv tokens to the dictionary, with all errors and exits in their order |
| Docopt.AsksIffSet | xsrc/docopt-cpp/docopt.cpp:548-566 | an option is set just if argv has one of the names |
| Dictionary.UsageAnswer | xsrc/docopt-cpp/docopt.cpp:613-658 | from the usage text and argv to the dictionary: an option, or the only positional, has what argv has for it: the value, the number of times, or the texts in order, and without any its value after `fix` |
| Dictionary.RepeatedFlag | xsrc/docopt-cpp/docopt_private.h:415-431 | an option without an argument that repeats in the usage: the number of times that argv has it, if nothing that was given up shows |
| Dictionary.RepeatedOption | xsrc/docopt-cpp/docopt_private.h:415-431 | an option with an argument that repeats: its arguments in the order of argv, under the same condition |
| Dictionary.AcceptedIsUsage | xsrc/docopt-cpp/docopt.cpp:636-651 | what is answered with a dictionary is in the language of the usage text, and for an orderly pattern all that is in it is |
| Dictionary.OptionsAnswer | xsrc/docopt-cpp/docopt.cpp:586-605 | `prog [options]` answers described options in any order, each at most once and however typed, with a dictionary that has just the described options under their long names, or short ones without: with the value typed, and else the one described |
| SequenceVerification.SizeIsLength | src/Catch/fakeit.hpp:538-617 | the size a sequence reports is the length of what it expects, and with repeat counts of at least one no sequence is empty |
| SequenceVerification.GetExpectedSequence | src/Catch/fakeit.hpp:565-608 | what a sequence expects is added at the end of the list |
| SequenceVerification.ChainIsExpected | src/Catch/fakeit.hpp:565-624 | calls are expected in the order in which they are put together, in every round of a repetition |
| SequenceVerification.IsMatch | src/Catch/fakeit.hpp:9447-9456 | whether a block matches at a place |
| SequenceVerification.FindNextBlock | src/Catch/fakeit.hpp:9458-9467 | the first place where a block matches, or -1 |
| SequenceVerification.FindNextMatch | src/Catch/fakeit.hpp:9421-9444 | one greedy round; the invocations of a round that fails stay collected |
| SequenceVerification.GreedyStaysAhead | src/Catch/fakeit.hpp:9421-9434 | wherever the blocks fit at all they fit greedily and end no later |
| SequenceVerification.GreedyDecides | src/Catch/fakeit.hpp:9421-9434 | the blocks can be placed if and only if the greedy placement reaches the last of them |
| SequenceVerification.RoundAdvancesIff | src/Catch/fakeit.hpp:9404-9434 | a complete round moves on if and only if the pattern is not empty; on an empty pattern every round succeeds where it started |
| SequenceVerification.CountMatches | src/Catch/fakeit.hpp:9404-9414 | the loop terminates, the count is the maximum number of complete occurrences in order without overlap, and what is collected beyond them is known exactly |
| ActionQueue.ActionSequence.AppendDo | src/Catch/fakeit.hpp:8109-8112 | an action goes in front of the sentinel |
| ActionQueue.ActionSequence.HandleMethodInvocation | src/Catch/fakeit.hpp:8074-8088 | the front action is invoked and retired when that has finished it |
| ActionQueue.ActionSequence.constructor | src/Catch/fakeit.hpp:8114-8119 | only the sentinel is recorded |
| ActionQueue.RunKeeps | src/Catch/fakeit.hpp:8064-8123 | over any mix of appends and calls, used and pending actions are the appended ones in order, the sentinel is last and each call so far followed the schedule |
| ActionQueue.NextCall | src/Catch/fakeit.hpp:8074-8107 | the next call runs the action whose turn it is, and reports no more actions exactly when all are used up |
| ActionQueue.ScheduledRange | src/Catch/fakeit.hpp:7495-7539 | a call in the cumulative repeat range of an action runs that action, and one that is never done takes all later calls |
| Canvas.PictureIsStrokes | projects/pico-sketch/Sketch.cpp:322-372 | every pixel shows the last stroke over it since the last clear, in the colour and size selected for it, else white |
| Canvas.MovesTake | projects/pico-sketch/Sketch.cpp:322-344 | a move key pressed n times takes the pencil n pixels its way, up to the edge, and not to the side; other keys do not move it |
| Canvas.SettingsCycle | projects/pico-sketch/Sketch.cpp:133-178 | the keys for size and colour step through eight of each and start again, and change nothing else |
| Canvas.ColorBits | projects/pico-sketch/Sketch.cpp:154-178 | the bits of a colour's index are its red, green and blue; black is first and white last |
| Canvas.SizeSteps | projects/pico-sketch/Sketch.cpp:133-151 | sizes grow from one by one pixel up to four, by two up to ten, and then double |
| FrameBuffer.ClampBlockFits | projects/pico-sketch/Sketch.cpp:469-475 | for every display, radius, pencil position and size no wider than the cursor, the block is in the display and fits the buffer |
| FrameBuffer.BlockCoversPencil | projects/pico-sketch/Sketch.cpp:469-475 | the block covers all of the pencil that is in the display |
| FrameBuffer.BlockIsCentred | projects/pico-sketch/Sketch.cpp:469-475 | away from the edges it is the square of the cursor with the middle of the pencil in its middle |
| FrameBuffer.SaveBlock | projects/pico-sketch/Sketch.cpp:477-486 | every copy is in bounds and the buffer holds the block row by row |
| FrameBuffer.RestoreBlock | projects/pico-sketch/Sketch.cpp:505-514 | whatever was drawn inside the block, the whole frame shows the picture again |
| FrameBuffer.FillRect | projects/pico-sketch/Sketch.cpp:346-348 | the part of a rectangle in the display is painted and nothing else |
| Sketch.EventMonitor.constructor | projects/pico-sketch/Sketch.cpp:57-63 | the start screen waits for a key with the cursor off |
| Sketch.EventMonitor.MovePencil | projects/pico-sketch/Sketch.cpp:322-351 | the pencil moves, stays in the display, and paints its square in the selected colour |
| Sketch.EventMonitor.ClearTheCanvas | projects/pico-sketch/Sketch.cpp:353-372 | a white canvas with a black pencil of size one in the middle |
| Sketch.EventMonitor.ShowCursor | projects/pico-sketch/Sketch.cpp:467-499 | the cursor is drawn and the saved block completes the frame to the unchanged picture |
| Sketch.GlyphMargin | projects/pico-sketch/Sketch.cpp:493 | the white square of the cursor keeps the same distance from all sides of its block, clipped or not |
| Sketch.GlyphFramesPencil | projects/pico-sketch/Sketch.cpp:489-495 | away from the edges the white square of the cursor is the pencil's size, rounded up to even, around its middle, and has all of the pencil |
| Sketch.EventMonitor.RestoreCursorBlock | projects/pico-sketch/Sketch.cpp:501-518 | the frame shows the unchanged picture and the pen has the pencil colour again |
| Sketch.EventMonitor.ConsumeAnyKeyWhenWaiting | projects/pico-sketch/Sketch.cpp:195-205 | the first key on the start screen gives a blank canvas and nothing else |
| Sketch.EventMonitor.ToggleCursor | projects/pico-sketch/Sketch.cpp:228-240 | the cursor key switches the cursor and leaves the picture alone |
| Sketch.EventMonitor.NextSize | projects/pico-sketch/Sketch.cpp:133-151 | the size steps on cyclically and the cursor is shown |
| Sketch.EventMonitor.NextColor | projects/pico-sketch/Sketch.cpp:154-178 | the colour steps on cyclically, cursor or not |
| Sketch.EventMonitor.ButtonEvent | projects/pico-sketch/Sketch.cpp:77-240 | each event does to the picture what the cursor-free application does, and when the cursor is on after it |
| Sketch.EventMonitor.ButtonEvents | projects/pico-sketch/Sketch.cpp:57-240 | over every sequence of events, with the cursor off, the frame buffer holds the strokes since the last clear and nothing else |
| LogicalButtons.TickKeeps | projects/pico-sketch/LogicalButtons.cpp:85-136 | the delay counter is positive wherever it is decremented, so the unsigned decrement never wraps |
| LogicalButtons.WrapsIffZeroCount | projects/pico-sketch/LogicalButtons.cpp:101-133 | the delay counter can be decremented at zero in some run if and only if the hold or the repeat count is zero |
| LogicalButtons.ZeroHoldWaits | projects/pico-sketch/LogicalButtons.cpp:101-107 | with a hold count of zero a press is not taken for held before 2^32 samples |
| LogicalButtons.ShortEpisode | projects/pico-sketch/LogicalButtons.cpp:95-100 | a release after fewer ticks than the hold count emits the key once, and a chord then waits for the other buttons |
| LogicalButtons.LongEpisode | projects/pico-sketch/LogicalButtons.cpp:101-135 | with n >= HOLD ticks between press and release, what is held when the hold count runs out is emitted 2 + (n - HOLD) / REPEAT times, twice for Alt, never for no key |
| LogicalButtons.KeyIsOfHeldSet | projects/pico-sketch/LogicalButtons.cpp:157-200 | on a tick with a release, the key of the buttons held before is given if and only if nothing else changed, when they have one |
| LogicalButtons.KeyTable | projects/pico-sketch/LogicalButtons.cpp:157-174 | the key of every set of buttons, by the value of its mask |
| LogicalButtons.ChordIsSeveral | projects/pico-sketch/LogicalButtons.cpp:160-172 | a set with a key is a chord just if it has several buttons |
| LogicalButtons.ShortPressEmitsItsKey | projects/pico-sketch/LogicalButtons.cpp:84-136 | a press released before the hold count, one button first: the key of what was held, once, whichever button it is and however the others follow |
| LogicalButtons.LongPressEmitsItsKey | projects/pico-sketch/LogicalButtons.cpp:84-136 | a longer press, with all releases after it, emits what `LongEpisode` says and no more |
| LogicalButtons.WaitingStays | projects/pico-sketch/LogicalButtons.cpp:110-117 | after a chord, while B, X or Y is down, nothing is emitted and the state stays, whatever A does and whatever is pressed |
| LogicalButtons.WaitingEndsIff | projects/pico-sketch/LogicalButtons.cpp:110-117 | without further presses, the scanner is idle again from the first sample on with all three up, and not before |
| LogicalButtons.PushesEmitTheirKeys | projects/pico-sketch/LogicalButtons.cpp:84-136 | any number of pushes after one another, chords among them, short and long, emit the keys of each and no others |
| LogicalButtons.EventNeedsPress | projects/pico-sketch/LogicalButtons.cpp:85-136 | over every run, a tick that emits a key lies in an episode opened by a press in idle and not closed since |
| LogicalButtons.LaterReleasesAreQuiet | projects/pico-sketch/LogicalButtons.cpp:110-117 | after an episode has closed, releasing the remaining buttons emits nothing |
| LogicalButtons.Scanner.DetectEdge | projects/pico-sketch/LogicalButtons.cpp:140-155 | the edge of one button and the tick's edge flags |
| LogicalButtons.Scanner.GetLogicalKey | projects/pico-sketch/LogicalButtons.cpp:176-200 | the key with the first released button put back, of what is held on a timeout, else none; a chord clears the single-key flag |
| LogicalButtons.Scanner.ProcessLogicalButtons | projects/pico-sketch/LogicalButtons.cpp:66-137 | one tick on the statics is the transition of which the episode lemmas speak |
| AsyncOpenClose.WorkerKeeps | src/Catch/helpers.h:332-348 | each step of the worker keeps semaphores balanced and opens and decisions paired with their requests |
| AsyncOpenClose.ClientKeeps | src/Catch/helpers.h:309-321 | each step of the client does too |
| AsyncOpenClose.HandshakeIsExact | src/Catch/helpers.h:309-348 | over all interleavings each open uses the arguments of its own request and each exit decision the flag of its own close, one to one and in order |
| AsyncOpenClose.NeverStuck | src/Catch/helpers.h:309-348 | unless the worker has left, it can move or the client's pending call can |
| AsyncOpenClose.ExitIsFinal | src/Catch/helpers.h:343-346 | the worker leaves only when a close asked for it, all requests are then served, and a further open waits for ever |

## Left out

- MatchCompleteness.OrderlyAcceptsItsLanguage: orderly is sufficient. It is shown necessary for flat patterns (`CompleteIffInOrder`), not for patterns with groups or alternatives.
- MatchResults.ExactIff: for lists the condition is shown necessary where every token of the leaf is one word. `ArgvIsWords` shows that of a parsed argv, for positionals and for options if all that argv has under the name take an argument.
- Docopt.DictionaryAnswers: one definition per name; so for `Dictionary`. With several, as when `[options]` stands for two descriptions of one option, the values are stated for patterns that never discard a take (`DictionaryInTurn`).
- Dictionary.UsageAnswer: of positionals, the only one of a usage. Of several, `DictionaryAnswers` has the token that each took.
- Matching.Match: `OneOrMore` must have one child, as the source asserts; `UsageMatchesIff` says when a usage text meets that, and `DocoptParse` asks it of the usage.
- SequenceVerification.CountMatches: the pattern must not be empty, since the source loops for ever on an empty one (`RoundAdvancesIff`).
- LogicalButtons.TickKeeps: the hold and repeat counts are at least one (`WrapsIffZeroCount`).
- ActionQueue.ScheduledRange: `times` is unbounded, so an action built with a count below one never becomes done; the source's `long` would wrap after 2^63 calls.
- docopt's regular expressions: sections, option descriptions, splitting a usage text into tokens; error texts; the assertion that a parsed usage is one group, which parentheses of its own in a usage text can break.
- Preparing.Unmentioned: the order of the options behind `[options]`, which a hash table decides in the source, is that of the descriptions here.
- docopt's hashing (equality is structural), and sharing of equal branches, which changes no tree.
- The Python parsers and `match` methods. They are not the same everywhere: Python adds to a collected value that is not a counter where C++ overwrites it.
- FakeIt's argument matchers, virtual table patching, event formatting, and stubs that call themselves while they run.
- Pico-Sketch's start screen contents, LED and LCD output, button debouncing and the data model that carries events.
- `AsyncOpenClose`: memory ordering beyond the semaphores; clients other than one that alternates open and close.
- The polling helpers of `helpers.h`, drivers, build scripts, generated documentation: hardware, configuration or plumbing.
