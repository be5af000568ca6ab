# Verification of the ad-bidding stack's data structures and protocols

This project models the hand-made data structures, parsers, selection pipeline and delivery control of
the bidding stack and proves what they are for. It verifies with `dafny verify dfyconfig.toml` (Dafny 4.11).

| files | component | main results |
|---|---|---|
| `rb_*.dfy` | intrusive red-black tree, on linked nodes with parent pointers | add, find and delete through every fix-up case; search depth |
| `list_*.dfy`, `merge_spec.dfy` | circular intrusive list and bottom-up merge sort, relinking in place | sorted, stable, exact run sizes, clipping unreachable |
| `json_*.dfy` | JSON lexer, resumable parser, tree on linked nodes, goto printer, escapes | exact language accepted, the code for every text, no tree error, round trip, shortest printed form, independence of fragments |
| `ad_*.dfy` | ad selection | staged filters equal one condition; winners; exact crash condition |
| `notice_tracker.dfy`, `notice_credits.dfy`, `daily_counts.dfy` | notices and counters | exactly the first notice that counts is credited, conservation |
| `pacing.dfy`, `daily_stops.dfy` | daily caps and pacing | quotas, never over the target, when a day is over and when not |
| `region_index.dfy` | two-level address index | equal to a linear scan, exact bounds |
| `log_queue.dfy` | log queue as interleaved steps | nothing lost, no lost wake-up, drains |
| `url_codec.dfy`, `base64_codec.dfy` | in-place codecs | round trips, buffer sizes |
| `cache_*.dfy` | multi-index cache and splice | indexes agree, left-biased union |
| `common.dfy`, `powers.dfy` | shared by the others | |

Code that changes links, arrays, maps or fields in place is modelled by methods on classes, arrays and
fields; each is proved against a function of its inputs or of the old state, and the theorems are about
those functions. Pointer structures are described by ghost values: a red-black tree by its shape seen from
any node, a list by the sequence of its nodes, a JSON document by its nodes in creation order.

## Where the code differs from its comments or from the expected meaning

- `json_parse_document` accepts a comma at the end of a nonempty array, and after the closing brace any text
  that completes no token, such as an open string (`JsonGrammar.AcceptedExactly`, `JsonFragments.AfterDocument`).
- Fed by pieces, the parser rejects a first piece of blanks that it accepts as part of the whole text
  (`JsonFragments.CutExactly`, `JsonFragments.StreamExactly`).
- `json_unescape` does not check what follows a high surrogate; such a string can be read past its end, and
  `JsonEscape.UnpairedExactly` says exactly when.
- The price of a creative is remembered by mapid alone, so for private deals it can be that of another impression
  (`AdCandidates.PricesExactly`).
- Of a single day clicks can exceed impressions (`DailyCounts.DailyClicksExactly`), and bids or impressions with an
  underscore can share their flags (`NoticeTracker.KeysMayMeet`).
- `SelectByAdvcat` never updates its running maximum, so it does not choose the most relevant trade in general
  (`AdBidding.TradeIsMaximal` gives the exact condition).
- Several candidates without a positive price leave `SelectByPrice` with none, and the random choice then
  divides by zero (`AdBidding.StuckExactly`, `AdBidding.SelectAd`).
- The last ten-minute segments of a day do not run at full speed (`Pacing.LastSegments`), and the pause for the
  rest of the day can last up to 59 seconds into the next (`Pacing.PauseEnds`).
- A policy with a budget or permitted hours but no target for impressions or clicks is never paused
  (`DailyStops.NeverStopped`).
- `adx_list_add` adds at the end and `adx_list_add_tail` at the front.
- `adx_cache_find_array_loop` does not bring an index equal to the length into range
  (`CachePool.Pool.FindArrayLoop`).
- Addresses outside the first and last range, and lists shorter than one block, make the region code read
  outside its vectors (`RegionIndex.RegionCode`, `RegionIndex.BuildIndex`).

## Model

| member | source | states |
|---|---|---|
| `RbTree.RbTree.Delete` | adx_core/src/adx_rbtree.c:224-302 | deleting any node of a valid tree leaves a valid tree (order, links, colours, black root) whose nodes in key order are the old ones without that node |
| `RbTree.RbTree.DeleteColor` | adx_core/src/adx_rbtree.c:138-222 | through every fix-up case the loop ends with a valid red-black tree of exactly the remaining nodes in order, starting from a tree that owes one black node at the hole |
| `RbTree.RbTree.BlackSiblingRight` | adx_core/src/adx_rbtree.c:157-180 | black sibling on the right: either everything is settled or the debt moves up to the parent, with no node lost or moved out of order |
| `RbTree.RbTree.BlackSiblingLeft` | adx_core/src/adx_rbtree.c:194-217 | the mirror image of the previous case |
| `RbTree.RbTree.DeleteUnderLeft` | adx_core/src/adx_rbtree.c:145-180 | one round at a left child, red sibling included: settled, or the debt strictly nearer to an end |
| `RbTree.RbTree.DeleteUnderRight` | adx_core/src/adx_rbtree.c:182-218 | one round at a right child |
| `RbTree.RbTree.DeleteInner` | adx_core/src/adx_rbtree.c:238-281 | a node with two children: the in-order successor takes its place and its colour, and exactly that node leaves the order |
| `RbTree.RbTree.DeleteOuter` | adx_core/src/adx_rbtree.c:230-300 | a node with at most one child is replaced by that child and the tree repaired |
| `RbTree.RbTree.Successor` | adx_core/src/adx_rbtree.c:242-244 | the inner loop stops at the leftmost node below the right child |
| `RbTree.RbTree.Promote` | adx_core/src/adx_rbtree.c:246-277 | relinking the successor into the place of the deleted node yields exactly the tree with the items exchanged, the hole below, and the parent the fix-up needs |
| `RbTree.RbTree.Unlink` | adx_core/src/adx_rbtree.c:283-298 | writing two links takes a node with at most one child out of the representation |
| `RbTree.RbTree.RelinkParent` | adx_core/src/adx_rbtree.c:288-298 | the parent (or the head) leads to the replacement afterwards, and nothing else changes |
| `RbTree.RbTree.TakePlace` | adx_core/src/adx_rbtree.c:246-277 | a node unlinked further down takes over all links of the deleted one |
| `RbTree.RbTree.InsertColor` | adx_core/src/adx_rbtree.c:74-136 | from one red node that may be at fault the loop reaches a valid red-black tree with the same nodes in the same order |
| `RbTree.RbTree.InsertUnderLeft` | adx_core/src/adx_rbtree.c:83-106 | one round under a left parent: recolouring or turning keeps all nodes in order and moves the fault up |
| `RbTree.RbTree.InsertUnderRight` | adx_core/src/adx_rbtree.c:108-132 | one round under a right parent |
| `RbTree.RbTree.RotateLeft` | adx_core/src/adx_rbtree.c:22-46 | the pointer writes turn the represented subtree to the left inside unchanged frames |
| `RbTree.RbTree.RotateRight` | adx_core/src/adx_rbtree.c:48-72 | the mirror image |
| `RbTree.RbTree.RotateLeftLinks` | adx_core/src/adx_rbtree.c:22-46 | which fields of which four nodes a left rotation writes, and that all others stay |
| `RbTree.RbTree.LinkNode` | adx_core/src/adx_rbtree.c:14-20 | a new red leaf at the place the search ended |
| `RbTree.RbTree.SetColor` | adx_core/src/adx_rbtree.c:9-12 | changes one colour and no link |
| `RbTree.RbTree.Add` | adx_core/src/adx_rbtree.c:304-338 | a duplicate key changes nothing; otherwise the node is put at its place in the order and the tree stays valid; null is returned for a duplicate and for the first node alike, otherwise a neighbour in the order |
| `RbTree.RbTree.Find` | adx_core/src/adx_rbtree.c:340-371 | a node is found exactly when its key is in the tree, visiting at most 2*log2(n+1) nodes; the number variant at 404-429 differs only in the comparison |
| `RbShape.FlatPlug` | adx_core/src/adx_rbtree.c:22-72 | the items of a tree seen from any place in it are its items seen from the head |
| `RbShape.SplitRedBlack` | adx_core/src/adx_rbtree.c:74-222 | any place in a valid tree is a valid subtree in valid frames |
| `RbShape.PlugRedBlack` | adx_core/src/adx_rbtree.c:74-222 | and the other way round |
| `RbShape.RecolorOk` | adx_core/src/adx_rbtree.c:86-93 | red uncle: recolouring keeps every black height and moves the fault two levels up |
| `RbShape.InnerOk` | adx_core/src/adx_rbtree.c:95-102 | inner grandchild: the turn keeps heights and order |
| `RbShape.RaiseOk` | adx_core/src/adx_rbtree.c:104-106 | outer grandchild: the turn removes the fault |
| `RbShape.FinishInsert` | adx_core/src/adx_rbtree.c:135-135 | blackening the head finishes the insertion |
| `RbShape.RedSiblingOk` | adx_core/src/adx_rbtree.c:149-155 | red sibling: it is lifted and the new sibling is black |
| `RbShape.BlackNephewsOk` | adx_core/src/adx_rbtree.c:157-162 | no red nephew: painting the sibling red moves the debt to the parent |
| `RbShape.NearNephewOk` | adx_core/src/adx_rbtree.c:166-172 | red near nephew: it becomes the far one |
| `RbShape.FarNephewOk` | adx_core/src/adx_rbtree.c:174-179 | red far nephew: the last turn pays the debt, leaving a valid tree in the same order |
| `RbShape.FinishDelete` | adx_core/src/adx_rbtree.c:221-221 | blackening the node at hand finishes the deletion |
| `RbShape.SuccessorItems` | adx_core/src/adx_rbtree.c:238-277 | putting the leftmost node of the right subtree in place of the deleted one removes just that one from the order |
| `RbOrder.LogarithmicHeight` | adx_core/src/adx_rbtree.c:340-371 | 2^height <= (n+1)^2 for every valid tree of n nodes |
| `RbOrder.FitsIsNew` | adx_core/src/adx_rbtree.c:304-338 | a key whose search ends at an empty place is new, and in order there |
| `RbOrder.OrderedWithout` | adx_core/src/adx_rbtree.c:224-302 | order survives removing any node |
| `ListRing.Ring.Add` | adx_core/src/adx_list.h:29-32 | puts the node at the end of the list (despite its name) and keeps both directions of links consistent |
| `ListRing.Ring.AddTail` | adx_core/src/adx_list.h:34-37 | puts the node at the front |
| `ListRing.Ring.Del` | adx_core/src/adx_list.h:45-48 | takes out exactly the given node |
| `ListRing.Ring.Empty` | adx_core/src/adx_list.h:50-54 | true exactly for the empty list |
| `ListRing.Ring.Pop` | adx_core/src/adx_list.c:114-125 | adx_queue: takes off the first node, or nothing |
| `ListRing.PassedOver` | adx_core/src/adx_list.h:39-48 | once both neighbours point past a node the rest is a ring again |
| `ListSort.Sort` | adx_core/src/adx_list.c:65-109 | for any total preorder the ring afterwards holds a sorted, stable permutation; the clipping branch is never taken if the number of nodes is below 2^(size-1), and then slot i holds nothing or a sorted run of exactly 2^i nodes |
| `ListSort.CallerSize` | adx_dsp/src/adx_dump.cpp:131-133 | child_total + 1 slots always suffice |
| `ListSort.Merge` | adx_core/src/adx_list.c:9-28 | relinks two lists into their stable merge |
| `ListSort.MergeAndRestore` | adx_core/src/adx_list.c:30-60 | the last merge also restores the back links and closes the ring |
| `ListSort.CarryUp` | adx_core/src/adx_list.c:87-90 | the new node is merged through the full slots, oldest first, up to the first empty one |
| `ListSort.AddNode` | adx_core/src/adx_list.c:83-102 | one round of the counter: all slots together are a stable arrangement of the nodes seen, clipped only from 2^(size-1) nodes on |
| `ListSort.Collect` | adx_core/src/adx_list.c:81-102 | the first loop puts every node into a slot |
| `ListSort.MergeSlots` | adx_core/src/adx_list.c:104-106 | the second loop merges all slots but the highest |
| `ListSort.Combine` | adx_core/src/adx_list.c:104-108 | both together give the sorted ring |
| `MergeSpec.MergeIsStable` | adx_core/src/adx_list.c:9-28 | merging sorted runs gives a sorted, stable arrangement of their concatenation |
| `MergeSpec.CarryOn` | adx_core/src/adx_list.c:87-90 | merging a slot into the carried run keeps age order among equal elements |
| `MergeSpec.PutRun` | adx_core/src/adx_list.c:101-101 | so does putting it down |
| `MergeSpec.AllCarried` | adx_core/src/adx_list.c:104-108 | when no slot is left, the carried run is the sorted list |
| `JsonLexer.CollectsStrings` | adx_auto_cost/src/json.c:1482-1680 | states 1 to 6 accept exactly the contents of strings of section 7 of RFC 8259, byte for byte |
| `JsonLexer.CollectsNumbers` | adx_auto_cost/src/json.c:1825-2130 | states 17 to 24 accept exactly the numbers of section 6 of RFC 8259 |
| `JsonParserInvariant.NoTreeErrors` | adx_auto_cost/src/json.c:2142-2775 | on no input can a tree sanity assert, JSON_BAD_TREE_STRUCTURE or JSON_UNKNOWN_PROBLEM occur: the cursor always has the kind the state expects |
| `JsonParserInvariant.RunKeeps` | adx_auto_cost/src/json.c:2142-2775 | every run keeps the invariant of states, cursor kinds and lexer text, or ends in one of the two input errors |
| `JsonParserInvariant.LexKeeps` | adx_auto_cost/src/json.c:1379-2139 | a token handed out is a lexeme of its kind, and only numbers leave a character unread |
| `JsonParserInvariant.TakeKeeps` | adx_auto_cost/src/json.c:2204-2742 | every token in every state keeps cursor and state in step |
| `JsonParserInvariant.AcceptedIsDocument` | adx_auto_cost/src/json.c:2779-2809 | whatever is accepted is a well formed document with an object at the root |
| `JsonGrammar.AcceptedExactly` | adx_auto_cost/src/json.c:2142-2809 | a text is accepted as a document if and only if it spells a derivation of that document: the grammar of sections 2 to 7 of RFC 8259 with an object at the root, plus one comma at the end of nonempty arrays, plus an incomplete lexeme after the end |
| `JsonGrammar.TakeAllSound` | adx_auto_cost/src/json.c:2142-2742 | tokens taken without failure are, in every state, the words of open and finished derivations |
| `JsonGrammar.DocumentTaken` | adx_auto_cost/src/json.c:2142-2742 | every derivation of a document is taken to the end as that document |
| `JsonVerdicts.ViableExactly` | adx_auto_cost/src/json.c:2142-2742 | the parser goes on with a sequence of tokens if and only if they are the first words of some document, and is done if and only if they are all words of one: it fails at the first token that no document can have there |
| `JsonVerdicts.ErrorExactly` | adx_auto_cost/src/json.c:2155-2763 | that token is reported as JSON_ILLEGAL_CHARACTER if it is an invalid one behind a comma, a colon or an opening bracket, and otherwise as JSON_MALFORMED_DOCUMENT |
| `JsonVerdicts.VerdictExactly` | adx_auto_cost/src/json.c:2142-2775 | the code json_parse_fragment returns for any text, from the grammar alone: one of those errors, waiting for the end of the file behind a whole document, malformed for nothing but blanks, incomplete otherwise |
| `JsonTokens.RunIsTakeAll` | adx_auto_cost/src/json.c:2142-2775 | parsing a text is parsing its tokens, wherever buffers and unread characters fall |
| `JsonLexemes.LexemesLexed` | adx_auto_cost/src/json.c:1379-2139 | blanks and lexemes, numbers followed by a blank or closing character, are read as their tokens |
| `JsonLexemes.LexemesFound` | adx_auto_cost/src/json.c:1379-2139 | every text without invalid tokens is of that form |
| `JsonRoundTrip.RoundTrip` | adx_auto_cost/src/json.c:2142-2809 | for every document, parsing its printed form gives the document back |
| `JsonRoundTrip.PrintedAgain` | adx_auto_cost/src/json.c:2142-2809 | every accepted text is equivalent to the printed form of what it was parsed to |
| `JsonPrinted.PrintedExactly` | adx_auto_cost/src/json.c:573-799 | a document is printed as the words of its grammar without extra commas, one behind the other with nothing between |
| `JsonPrinted.PrintedIsShortest` | adx_auto_cost/src/json.c:573-799 | of all texts that are parsed to a document its printed form is the shortest |
| `JsonRoundTrip.ValueRead` | adx_auto_cost/src/json.c:2393-2742 | in any context a printed value is read as one finished child |
| `JsonRoundTrip.TrailingComma` | adx_auto_cost/src/json.c:2561-2742 | an array may end in a comma, which leaves no trace |
| `JsonFragments.Resumes` | adx_auto_cost/src/json.c:2142-2173 | parsing a and then b reaches the same parser, lexer, pending text, tree and code as parsing both at once, whenever a did not fail |
| `JsonFragments.FailsForGood` | adx_auto_cost/src/json.c:2142-2173 | a failure inside a is a failure of the whole |
| `JsonFragments.CutExactly` | adx_auto_cost/src/json.c:2155-2173 | cutting the text after a changes the outcome if and only if a is a nonempty run of blanks and the whole is not malformed anyway |
| `JsonFragments.CutAnywhere` | adx_auto_cost/src/json.c:2155-2173 | a text may be cut after a, whatever follows, if and only if a is empty or not all blanks |
| `JsonFragments.StreamExactly` | adx_auto_cost/src/json.c:187-236 | reading a file by lines ends as parsing it whole does, if and only if the first piece is not blank or the file is malformed anyway |
| `JsonFragments.StreamAnywhere` | adx_auto_cost/src/json.c:187-236 | a first piece is safe, whatever pieces follow, if and only if it is not blank |
| `JsonFragments.AfterDocument` | adx_auto_cost/src/json.c:2744-2763 | after a document exactly those texts may follow that complete no token |
| `JsonFragments.OpenStringAfterDocument` | adx_auto_cost/src/json.c:2744-2763 | so a text with an open string behind its last brace is accepted, against the comment at 2744 |
| `JsonTree.PopKeeps` | adx_auto_cost/src/json.c:457-536 | leaving a node neither adds nor removes one |
| `JsonTree.ValuesArePrintable` | adx_auto_cost/src/json.c:573-799 | every well formed value or field can be printed |
| `JsonNodes.GrownFits` | adx_auto_cost/src/json.c:457-536 | the pointer writes of an insertion make exactly the sibling, parent, first and last relations of one more entry |
| `JsonNodes.InsertChild` | adx_auto_cost/src/json.c:457-536 | a string or array takes any child, an object only a string, and nothing else any; then all links are consistent with the new child last |
| `JsonReader.Reader.NextToken` | adx_auto_cost/src/json.c:1379-2139 | the lexer loop stops where and with what the scan says |
| `JsonReader.Reader.Leave` | adx_auto_cost/src/json.c:2204-2272 | closing an object or array moves the cursor as the step function does, with the same errors |
| `JsonReader.Reader.PutValue` | adx_auto_cost/src/json.c:2393-2530 | a finished value is linked in and the cursor goes up to the object |
| `JsonReader.Reader.Act` | adx_auto_cost/src/json.c:2204-2742 | one token on linked nodes is one step of the step function |
| `JsonReader.Reader.Turn` | adx_auto_cost/src/json.c:2152-2768 | one turn of the loop on linked nodes leaves the rest of the run unchanged |
| `JsonReader.Reader.Fragment` | adx_auto_cost/src/json.c:2142-2775 | json_parse_fragment on linked nodes equals the step function run over the buffer, for any state it starts in |
| `JsonReader.ReadDocument` | adx_auto_cost/src/json.c:2779-2809 | the nodes built for an accepted text are exactly those of its document, all five pointers of each consistent |
| `JsonReader.ReadStream` | adx_auto_cost/src/json.c:187-236 | reading by lines ends as the fragments say, with the nodes of the whole file |
| `JsonReader.RunScan` | adx_auto_cost/src/json.c:2142-2775 | running character by character is scanning tokens and taking them |
| `JsonWriter.WriteTree` | adx_auto_cost/src/json.c:573-799 | the goto printer terminates and equals the recursive printer; it fails exactly on a label without a value |
| `JsonWriter.WholeRun` | adx_auto_cost/src/json.c:573-799 | a run of its states from any root ends, with the printed form or the error |
| `JsonWriter.OpenPass` | adx_auto_cost/src/json.c:587-739 | state1 on the linked nodes is the step of the machine |
| `JsonWriter.ClosePass` | adx_auto_cost/src/json.c:741-786 | state2 on the linked nodes is the step of the machine |
| `JsonWriter.WrittenIsRead` | adx_auto_cost/src/json.c:573-799 | what it writes for a document parses back to that document |
| `JsonEscape.EscapeRoundTrip` | adx_auto_cost/src/json.c:1139-1362 | unescaping an escaped string gives the string, for every string without a zero byte |
| `JsonEscape.EscapedFits` | adx_auto_cost/src/json.c:1139-1206 | an escaped string is the content of a JSON string |
| `JsonEscape.EscapedIsOneToken` | adx_auto_cost/src/json.c:1139-1680 | and between quotes is read as one string token carrying that text |
| `JsonEscape.UnescapeIsMeaning` | adx_auto_cost/src/json.c:1209-1362 | whenever a string has a meaning by section 7 of RFC 8259 (no half surrogate pair), json_unescape yields it in UTF-8 |
| `JsonEscape.PairEscape` | adx_auto_cost/src/json.c:1296-1345 | the escapes of the two halves of any code point from 0x10000 on, with digits of either case, are unescaped to its UTF-8 sequence whatever follows, and mean it |
| `JsonEscape.BasicEscape` | adx_auto_cost/src/json.c:1258-1345 | so is the escape of any other code point, and it means it |
| `JsonEscape.LowAlone` | adx_auto_cost/src/json.c:1258-1345 | the second half of a pair alone is written as three bytes |
| `JsonEscape.BadEscapes` | adx_auto_cost/src/json.c:1209-1262 | a backslash before any other character or at the end meets the failing assert; a \u escape cut off by the end is read past it |
| `JsonEscape.EscapeTable` | adx_auto_cost/src/json.c:1139-1206 | every byte: eight have a short escape, the others below a space one of four digits, the rest stay |
| `JsonEscape.Utf8` | adx_auto_cost/src/json.c:1258-1345 | the bytes written for a code point, surrogates excepted, are a UTF-8 sequence of section 3 of RFC 3629 with that value |
| `JsonEscape.Utf8Unique` | adx_auto_cost/src/json.c:1258-1345 | there is only one such sequence |
| `JsonEscape.GuardedIsWhole` | adx_auto_cost/src/json.c:1209-1362 | a string in which every \u escape of a high surrogate is directly followed by another \u escape is unescaped to its end |
| `JsonEscape.FirstUnpaired` | adx_auto_cost/src/json.c:1296-1319 | every other string, read from the left, has a first high surrogate that no escape follows |
| `JsonEscape.UnpairedExactly` | adx_auto_cost/src/json.c:1296-1319 | there six characters, whatever they are, are taken with it: with fewer than six behind it the text is left, and exactly then if no backslash is among them; the two checks at 1306 and 1310 compare a negation and never fire |
| `JsonEscape.UnescapeText` | adx_auto_cost/src/json.c:1209-1362 | on any text: the unescaped bytes and a zero, within the buffer and never ahead of the read cursor, or the failing assert, or leaving the text |
| `JsonEscape.EscapeText` | adx_auto_cost/src/json.c:1139-1206 | the loop writes the escape of every byte |
| `AdBidding.SelectAd` | BidCore/common/bidbase.cpp:545-606 | for any request, seen through the prices as they are remembered by mapid: no bid exactly when nothing passes the one condition; a division by zero exactly when some impression is stuck; otherwise each surviving impression gets one winner, which can win: if the request supports deep links and any survivor has one, it has one and no other that has one is dearer, otherwise no survivor is dearer, and its trade allows it; and the same of the request itself when a mapid has one price |
| `AdBidding.SelectPriced` | BidCore/common/bidbase.cpp:590-606 | the same for the stages from the audience filter on |
| `AdBidding.FinalistsCanWin` | BidCore/common/bidbase.cpp:973-1158 | the three choices in a row leave exactly the candidates that can win: those with a deep link compete if the request supports it and there are any, otherwise all; of several only the dearest, with a price; and of those any whose trade is not clicked on and has no relevant larger one beside it, unless all trades are one or clicked on |
| `AdBidding.SelectOne` | BidCore/common/bidbase.cpp:973-991 | the winner of one impression can win, and the division by zero comes exactly when nobody can |
| `AdBidding.PassesExactly` | BidCore/common/bidbase.cpp:545-606 | the one condition, spelled out from the request |
| `AdBidding.ContainsExactly` | BidCore/common/filter_assist.cpp:118-135 | a device id is found in an entry exactly if the entry is something, the id and something |
| `AdBidding.ConsistentSame` | BidCore/common/bidbase.cpp:824-851 | when a mapid has one price, survivors and finalists are the same seen through the memo |
| `AdBidding.StagesAreOneCondition` | BidCore/common/bidbase.cpp:545-606 | the staged filters over three derived maps leave exactly what passes policy, policy-by-impression, creative-by-impression, audience and frequency taken as one conjunction |
| `AdBidding.SurvivorSeen` | BidCore/common/bidbase.cpp:545-600 | a survivor is seen at every stage, so an early return means that nothing survives |
| `AdBidding.WinnerIsPriciest` | BidCore/common/bidbase.cpp:973-1081 | among several preferred candidates a winner has the highest price, a positive one |
| `AdBidding.StuckExactly` | BidCore/common/bidbase.cpp:1030-1198 | a nonempty group is stuck exactly when more than one candidate is preferred and none has a positive price |
| `AdBidding.ZeroPricesStick` | BidCore/common/bidbase.cpp:1044-1057 | two candidates priced zero are an example: both are dropped and the random choice divides by zero |
| `AdBidding.TradeIsMaximal` | BidCore/common/bidbase.cpp:1122-1140 | the choice by trade is the choice of the most relevant trades if and only if none is relevant or the last of them alone is most relevant: the running maximum is never updated |
| `AdBidding.SelectByDeeplink` | BidCore/common/bidbase.cpp:993-1027 | keeps those with a deep link when the request supports it and some but not all have one |
| `AdBidding.SelectByPrice` | BidCore/common/bidbase.cpp:1030-1067 | keeps the candidates of the highest positive price, or a single candidate whatever its price |
| `AdBidding.SelectTrades` | BidCore/common/bidbase.cpp:1122-1140 | selects the trades without a relevant larger one, for trades taken in increasing order |
| `AdBidding.SelectByAdvcat` | BidCore/common/bidbase.cpp:1094-1158 | the result is that choice of trades, or all candidates |
| `AdBidding.SelectByLast` | BidCore/common/bidbase.cpp:1175-1198 | picks one of the candidates, or divides by zero on none |
| `AdBidding.FilterByCreativeBidding` | BidCore/common/bidbase.cpp:973-991 | ends without a division by zero exactly when no group is stuck, with one finalist per group |
| `AdCandidates.Candidates.FilterCreative` | BidCore/common/bidbase.cpp:619-631 | every impression gets the group the search found |
| `AdCandidates.Candidates.FilterPolicies` | BidCore/common/bidbase.cpp:662-711 | erasing while iterating leaves exactly the open policies |
| `AdCandidates.Candidates.FilterPoliciesByImp` | BidCore/common/bidbase.cpp:713-760 | leaves exactly the accepted policies of each impression and no empty group |
| `AdCandidates.Candidates.FilterCreativeByImp` | BidCore/common/bidbase.cpp:762-822 | leaves exactly the creatives that fit at the prices as remembered in the end, each with its price remembered |
| `AdCandidates.Candidates.GetPrice` | BidCore/common/bidbase.cpp:824-851 | the first price asked for a mapid is the answer from then on |
| `AdCandidates.PricesExactly` | BidCore/common/bidbase.cpp:824-851 | after any calls every answer is the right one if and only if a mapid has one price; a private deal with another price is the counterexample |
| `AdCandidates.Candidates.FilterByAudience` | BidCore/common/bidbase.cpp:874-906 | leaves exactly the policies the audience filter accepts |
| `AdCandidates.Candidates.FilterByFrequency` | BidCore/common/bidbase.cpp:908-966 | leaves exactly the creatives under all three caps |
| `AdCandidates.Candidates.ImpCreative2Policies` | BidCore/common/filter_assist.cpp:13-26 | the policies are those of the creatives |
| `AdCandidates.Candidates.MakeImpPolicies` | BidCore/common/filter_assist.cpp:28-51 | each impression gets its policies among the remaining ones, and no empty group |
| `AdCandidates.Candidates.AdjustImpCreativesByImpPolicies` | BidCore/common/filter_assist.cpp:53-85 | the creatives of each impression are narrowed to its policies |
| `AdCandidates.Candidates.AdjustImpCreativesByPolicies` | BidCore/common/filter_assist.cpp:87-115 | the creatives are narrowed to the remaining policies, and empty groups go |
| `AdFilter.FrequencyFilter.Check` | BidCore/common/filter_assist.cpp:138-170 | the remembered answers never change the answer: true exactly when no device of the request has reached the cap |
| `AdFilter.FrequencyFilter.DeviceidInSet` | BidCore/common/filter_assist.cpp:118-135 | true exactly when some entry contains some device id |
| `NoticeTracker.CreditedOnce` | adx_auto_cost/src/tracker.cpp:366-416 | over any run each bid, impression and advertiser key is credited at most one win, one impression and one click, and a click only after its impression |
| `NoticeCredits.FlagsAfter` | adx_auto_cost/src/tracker.cpp:366-416 | over any run no key appears or goes, and a bit of a key is set at the end if and only if it was set or a notice of its kind counted: one that the store takes, for a click behind a stored impression or on a key already shown |
| `NoticeCredits.FirstIsCredited` | adx_auto_cost/src/tracker.cpp:366-416 | over any run, of the notices of a key and kind exactly the first that counts is credited, and none if the bit was set or none counts |
| `NoticeCredits.Verdicts` | adx_auto_cost/src/tracker.cpp:366-466 | what a notice that is not credited is reported with |
| `NoticeCredits.CostsAddUp` | adx_core/src/adx_dsp_control.cpp:243-322 | over any run the cost of a policy, of all days or of one, grows by the costs of the impressions and clicks credited to it |
| `NoticeTracker.RunConserves` | adx_core/src/adx_dsp_control.cpp:243-322 | over any run each impression, click and cost counter of a campaign, of all days and of each day, is the sum over its policies |
| `NoticeTracker.RunCounts` | adx_core/src/adx_dsp_control.cpp:243-322 | with a fixed place per key the counters equal the numbers of keys shown and clicked, so clicks never exceed impressions |
| `NoticeTracker.FreshStore` | adx_auto_cost/src/tracker.cpp:366-380 | the store as the bidders leave it satisfies both |
| `DailyCounts.DayTallies` | adx_core/src/adx_dsp_control.cpp:243-322 | over any run the counters of a day grow by the numbers of keys credited with an impression and with a click on that day |
| `DailyCounts.DailyClicksExactly` | adx_core/src/adx_dsp_control.cpp:243-322 | with a fixed place per key, the clicks of a day stay within its impressions if and only if the keys clicked on it and shown on another day are no more than those shown on it and not clicked |
| `DailyCounts.DailyClicksWithin` | adx_core/src/adx_dsp_control.cpp:243-322 | when every click comes on the day of its impression, clicks stay within impressions for every policy, campaign and day |
| `DailyCounts.DailyClicksMayExceed` | adx_core/src/adx_dsp_control.cpp:274-296 | an impression on one day and its click on any other day give a day with a click and no impression |
| `NoticeTracker.KeysTellApart` | adx_auto_cost/src/tracker.cpp:366-368 | bids and impressions without an underscore never share their flags |
| `NoticeTracker.KeysMayMeet` | adx_auto_cost/src/tracker.cpp:366-368 | others can: the underscore between the parts may also be one of a part |
| `NoticeTracker.Redis.Track` | adx_auto_cost/src/tracker.cpp:366-466 | updating the store in place is one step of the model, with the verdict the notice is reported with |
| `NoticeTracker.Redis.CountSpan` | adx_core/src/adx_dsp_control.cpp:243-322 | the increments for a policy and its campaign |
| `Pacing.KpiPolicy` | adx_core/src/adx_dsp_control.cpp:589-773 | the nested tests come to one decision: whether to pause, for how long and with which reason |
| `DailyStops.DecisionTable` | adx_core/src/adx_dsp_control.cpp:589-773 | the whole decision from targets, spending and the segments that can still be used, with reasons 21, 22, 24 and 23 in that order |
| `DailyStops.DayIsOver` | adx_core/src/adx_dsp_control.cpp:621-668 | over any run, once every target there is has been met or the budget is spent, nothing more is delivered that day |
| `DailyStops.NoEarlyStop` | adx_core/src/adx_dsp_control.cpp:589-773 | over any run, before that no pause goes beyond the hour in which it is set |
| `DailyStops.ForbiddenHour` | adx_core/src/adx_dsp_control.cpp:683-697 | over any run, in an hour that is not permitted nothing is delivered after the first notice |
| `DailyStops.NeverStopped` | adx_core/src/adx_dsp_control.cpp:622-628 | a policy without a target for impressions or clicks is never paused, whatever its budget and hours |
| `DailyStops.HoursCounted` | adx_core/src/adx_dsp_control.cpp:702-716 | the hours counted are the permitted ones from there on |
| `DailyStops.SlotsAreShare` | adx_core/src/adx_dsp_control.cpp:702-716 | the slots computed from hour and minute are the segments that can still be used, less two to spare |
| `DailyStops.LastSlots` | adx_core/src/adx_dsp_control.cpp:702-716 | with all hours permitted the last n segments count n - 2, but at least one |
| `Pacing.SegmentQuota` | adx_core/src/adx_dsp_control.cpp:702-770 | for a policy limited by impressions alone the pause comes exactly with the impression that reaches ceil(R/(N+1)) of the segment, though the quota shrinks as it is used |
| `Pacing.QuotaIsMet` | adx_core/src/adx_dsp_control.cpp:721-722 | k >= ceil((R-k)/N) if and only if k >= ceil(R/(N+1)) |
| `Pacing.SegmentsWithinQuota` | adx_core/src/adx_dsp_control.cpp:589-773 | over any run without deliveries during a pause no permitted segment takes more than its quota |
| `Pacing.NeverOver` | adx_core/src/adx_dsp_control.cpp:589-773 | over any such run the day total never exceeds the target |
| `Pacing.LiveCounts` | adx_core/src/adx_dsp_control.cpp:246-325 | the counter of a segment counts that segment alone: by the time its index recurs the old one has expired |
| `Pacing.LastSegments` | adx_core/src/adx_dsp_control.cpp:714-716 | the last three segments each stop half way, so the target is met exactly when less than 2, 4 or 8 was left; the comment at 714 says they run at full speed |
| `Pacing.MostIsDelivered` | adx_core/src/adx_dsp_control.cpp:702-722 | with n >= 3 segments to go at most one part in 4(n-1) is left undelivered |
| `Pacing.PauseEnds` | adx_core/src/adx_time.c:84-127 | the hour and ten-minute pauses end on the boundary; the pause for the day ends up to 59 seconds after midnight because seconds are ignored |
| `Pacing.ExceptCeil` | adx_core/src/adx_string.c:262-267 | the least integer not below x/y, for either sign of y, and 0 for y = 0 |
| `RegionIndex.RegionCode` | adx_core/src/adx_region.cpp:141-220 | the two-level search gives the code of a linear scan, 0 in gaps, exactly for addresses from the first start to the last end; for all others it reads outside a list |
| `RegionIndex.BinarySearch` | adx_core/src/adx_region.cpp:154-218 | each of the two loops ends; it hits a range holding the address, or there is none, or it leaves the list exactly beyond its ends |
| `RegionIndex.BuildIndex` | adx_core/src/adx_region.cpp:105-122 | the index is built out of bounds exactly for lists shorter than one block, and otherwise holds one summary per block, the last one longer |
| `RegionIndex.NoBlockNoRange` | adx_core/src/adx_region.cpp:187-220 | an address in no block is in no range |
| `RegionIndex.BlocksSorted` | adx_core/src/adx_region.cpp:105-122 | summaries of sorted ranges are sorted |
| `LogQueue.Reachable` | adx_core/src/adx_log.c:131-192 | in every interleaving, written, in flight and queued lines together are the pushed ones in lock order; when the consumer sleeps with nothing posted or owed, all has been written |
| `LogQueue.CallsArePushed` | adx_core/src/adx_log.c:157-192 | in every interleaving each producer pushes the nonempty lines it is called with, each once and in that order, but for the one in its hands |
| `LogQueue.HistoryIsPushes` | adx_core/src/adx_log.c:157-192 | and the history is what was pushed, in lock order |
| `LogQueue.RunKeeps` | adx_core/src/adx_log.c:131-192 | every step keeps mutual exclusion, order and the debt of a post |
| `LogQueue.Drains` | adx_core/src/adx_log.c:131-155 | once the producers are idle the consumer writes everything and goes to sleep |
| `LogQueue.Queue.Push` | adx_core/src/adx_queue.c:4-13 | a nonempty line is then the last, behind the old ones; an empty one changes nothing |
| `LogQueue.Queue.Pop` | adx_core/src/adx_queue.c:20-30 | takes off the oldest line, or gives the empty one |
| `UrlCodec.RoundTrip` | adx_core/src/adx_string.c:100-171 | decoding an encoded string restores it, for every string of bytes |
| `UrlCodec.EncodedIsPlain` | adx_core/src/adx_string.c:100-134 | only unreserved bytes, plus and percent signs are written |
| `UrlCodec.EncodeTable` | adx_core/src/adx_string.c:100-134 | every byte: a space is a plus, letters, digits and three signs stay, anything else is a percent sign and its two digits |
| `UrlCodec.DecodePlain` | adx_core/src/adx_string.c:136-171 | on any text a plus is a space, and everything that is not an escape stays, a percent sign without two digits among it |
| `UrlCodec.DecodeEscape` | adx_core/src/adx_string.c:136-171 | a percent sign and two digits of either case are the byte they spell |
| `UrlCodec.UrlEncode` | adx_core/src/adx_string.c:100-134 | 3n+1 bytes suffice, and the buffer holds the encoding and a zero |
| `UrlCodec.UrlDecode` | adx_core/src/adx_string.c:136-171 | in place: the result replaces the front of the buffer, the write index never passes the read index, and nothing beyond the text is touched |
| `UrlCodec.DecodeEncodedByte` | adx_core/src/adx_string.c:100-171 | one encoded byte is decoded to itself whatever follows |
| `Base64Codec.RoundTrip` | adx_core/src/adx_string.c:175-260 | decoding gives the string, and one zero byte more unless its length is a multiple of three |
| `Base64Codec.RoundTripAsStrings` | adx_core/src/adx_string.c:175-260 | as C strings the two are equal, for every nonempty string without zeros |
| `Base64Codec.AlphabetTable` | adx_core/src/adx_string.c:174-260 | the letters are table 1 of RFC 4648 |
| `Base64Codec.EncodeThree` | adx_core/src/adx_string.c:175-211 | three bytes are the four letters of their 24 bits, six bits each, and the rest follows |
| `Base64Codec.EncodeTwo` | adx_core/src/adx_string.c:175-211 | two bytes at the end are padded with zeros and one equals sign |
| `Base64Codec.EncodeOne` | adx_core/src/adx_string.c:175-211 | one byte at the end is padded with zeros and two equals signs |
| `Base64Codec.DecodeFour` | adx_core/src/adx_string.c:222-260 | four letters are the three bytes of their 24 bits |
| `Base64Codec.Base64Encode` | adx_core/src/adx_string.c:175-211 | the shifts write exactly the encoding of section 4 of RFC 4648 |
| `Base64Codec.Base64Decode` | adx_core/src/adx_string.c:222-260 | the shifts write exactly what the letters stand for |
| `Base64Codec.EncodedLength` | adx_core/src/adx_string.c:175-211 | four characters for every three bytes begun |
| `Base64Codec.EncodedBody` | adx_core/src/adx_string.c:227-236 | the padding the decoder counts is the padding the encoder wrote |
| `Base64Codec.GroupBySextets` | adx_core/src/adx_string.c:200-209 | the shifted-out sextets are the letters of the group, padding included |
| `Base64Codec.GroupByOctets` | adx_core/src/adx_string.c:248-254 | the shifted-out octets are the bytes of the group |
| `CachePool.Pool.Add` | adx_dsp/src/adx_cache.c:93-171 | an existing string or number key returns its node, a key or value of another kind nothing; otherwise there is one new node with this key, value and parent, found at the next position and, if it has a string or number key, under that; no other node changes its key, value or parent, and all indexes stay in step |
| `CachePool.RunCarries` | adx_dsp/src/adx_cache.c:78-171 | over any run of adds and sorts the child at position i carries key and value of the i-th add on its node that added a child |
| `CachePool.AddedIsNewChild` | adx_dsp/src/adx_cache.c:145-162 | the new node, told from finding alone |
| `CachePool.Pool.Create` | adx_dsp/src/adx_cache.c:78-90 | one more node, without parent, children or anything to be found |
| `CachePool.AddedValid` | adx_dsp/src/adx_cache.c:145-162 | the list, array tree, string tree and number tree of every node still hold the same children |
| `CachePool.FindIsScan` | adx_dsp/src/adx_cache.c:198-218 | finding in the trees is a linear scan of the child list; position i gives the child with exactly i siblings added before it, and nothing outside the list |
| `CachePool.RunValid` | adx_dsp/src/adx_cache.c:78-164 | over any run of adds and sorts list, array tree, string tree and number tree of every node agree |
| `CachePool.EveryRunAgrees` | adx_dsp/src/adx_cache.c:78-218 | so after any run from an empty pool, finding is scanning and position i is the i-th child added |
| `CachePool.NewCache` | adx_dsp/src/adx_cache.c:78-90 | an empty pool with one cache is such a start |
| `CachePool.Pool.Reorder` | adx_dsp/src/adx_dump.cpp:131-133 | sorting a child list changes that list and nothing else, so no index |
| `CachePool.Pool.FindArrayLoop` | adx_dsp/src/adx_cache.c:273-278 | the index is taken modulo the length, except that the length itself and negative numbers find nothing |
| `CacheSplice.Splice` | adx_dsp/src/adx_cache.c:174-195 | left-biased union: every path of string and number keys leads to what dest had, otherwise to what src had; it terminates also when dest lies below src, seeing src only down to dest; the children of dest by position are the old ones and then, in the order of the list of src, those of src added by position or under a key that dest does not have |
| `CacheSplice.SpliceR` | adx_dsp/src/adx_cache.c:174-190 | the same of the recursion, for any root guard |
| `CacheSplice.StopsNowhere` | adx_dsp/src/adx_cache.c:178-179 | the guard hides nothing unless dest lies below src |
| `CacheSplice.FindArgs` | adx_dsp/src/adx_cache.c:221-248 | following keys to the closing null gives the node at the end of the path |
| `CacheSplice.FollowIsWalk` | adx_dsp/src/adx_cache.c:221-248 | and its value is the one seen by walking the path |

## Left out

- Redis, Kafka, Flume, MySQL, FastCGI, curl, configuration files and logging: calls into code that is not here. Redis appears as a map, and reading and writing a notice's flags is one step.
- Allocation failure, freeing and pools: allocation succeeds and nothing is given back.
- RbTree: colour and parent are two fields, not packed into one pointer; a null string key, which `adx_rbtree_string_add` and `adx_rbtree_string_find` turn away, does not occur; string and number trees are one class with a comparison that is a total order.
- RbTree.RbTree.Delete: two independent pointer writes for a node with two children are made in another order than in the source.
- ListSort.MergeAndRestore: the comparisons of a node with itself, made only for side effects of the comparator, are left out; comparators are functions.
- ListSort.Sort: size 1 is allowed for at most one node; for more the source reads `part[1]`.
- JSON: `json_strip_white_spaces`, `json_format_string`, `json_saxy_parse`, `json_stream_output`, limits on string lengths and memory errors of the buffer; the line number is kept but nothing is proved about it.
- JsonRoundTrip.RoundTrip: documents with an object at the root, which is all that the parser accepts; `JsonWriter.WriteTree` covers printing from any node.
- AdFilter: policy and creative predicates, price and audience checks are functions of the request; the frequency tables are maps.
- AdBidding.SelectByLast: the random index is any index.
- AdBidding: sets and maps of pointers are visited in an arbitrary order, which covers the order by address; the detailed error log is left out.
- The classification tree behind `AdSelector::Search` is the function `search`.
- NoticeTracker: prices are the integer hundredths that are counted; flags do not expire; ten-minute and automatic-bidding counters are in `Pacing` or left out.
- Pacing: campaign targets, frequency control and the automatic bidding queue, which only repeat or notify.
- RegionIndex.RegionCode: parsing of the address, and the address 255.255.255.255, which `inet_addr` cannot tell from an error.
- LogQueue: level filters and formatting; a producer's call that formats to nothing is a step without effect.
- Base64Codec.Base64Decode: texts shorter than three characters, for which the source reads before the text, and texts with other characters before the padding: an equals sign there counts as 64, any other character subtracts from a null pointer.
- CachePool: the three trees of a node are maps here; that the red-black tree behaves as such a map is `RbTree`. Nodes allocated for a refused key or value are not kept.
- CacheSplice.Splice: src strictly below dest, where the list being read is extended while it is read and the result depends on the order of the lists.
- CacheSplice.SpliceR: the same restriction.
- JsonNodes.InsertChild: a child that already has children, which the parser never inserts.
- Error tables, dumps to JSON, macro replacement in addresses, price tuning in Python, Hadoop jobs and the web server.
