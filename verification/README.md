# Models of a FreeRTOS AWS demo: CBOR, device reports, subscriptions, command pool, shadow

A Dafny model of the parts of this repository that carry real invariants. The main part is the
vendored TinyCBOR codec: an encoder that fills a fixed buffer and keeps counting after it
overflows, a pull parser whose iterator reads one head ahead, and a recursive validator. Four
smaller parts follow: the writer of device defender reports, the table of MQTT subscriptions,
the pool of command structures with the agent's queue, and the handler of shadow deltas. Run
`dafny verify dfyconfig.toml` to check everything.

Code that works step by step is imperative here as well: iterator, encoder, table, queues,
pool and shadow register are classes with the fields of the C structures, loops are loops with
invariants, and buffers are arrays. Each is proved against specification functions, about which
the lemmas speak.

| file | what it holds |
|---|---|
| `Options.dfy` | a value that may be missing |
| `CborHeads.dfy` | big-endian numbers and heads |
| `CborSyntax.dfy` | items as trees of what an iterator passes, their bytes, a stateless recogniser and the proof that the two agree |
| `CborValue.dfy` | the iterator: look-ahead, containers, strings, getters, advance |
| `CborProtocol.dfy`, `CborTours.dfy` | every use of the iterator that follows its protocol, where it arrives, and which runs come to the same |
| `CborSearch.dfy` | comparing text and finding a key in a map |
| `CborEncoder.dfy`, `CborRuns.dfy` | the encoder, and whole runs of nested encoder calls |
| `CborRoundTrip.dfy`, `CborLookup.dfy` | a reader made of the iterator's operations, the round trip, and finding a key in what was encoded |
| `CborGrammar.dfy` | the grammar of section 2 of RFC 7049 and the exact language of the parser |
| `CborValidator.dfy`, `CborValidation.dfy` | what the validator admits, step by step, and the validator |
| `CborAdmission.dfy`, `CborValidationLaws.dfy` | what each flag asks of each element, that admission is exactly this, and what acceptance means |
| `CborBasicValidation.dfy` | validation without flags, and where its verdict is that of the basic validation |
| `CborTextValidation.dfy` | validation with the test of text, whose verdict can depend on the next item |
| `CborKeyOrder.dfy` | the validator's order of keys against the canonical one |
| `CborShortest.dfy` | the two checks for overlong heads |
| `Utf8.dfy`, `Utf8Dump.dfy` | the UTF-8 decoder and the escaped dump |
| `HalfFloat.dfy` | conversion between doubles and halves |
| `JsonText.dfy`, `ReportBuilder.dfy`, `ReportParse.dfy`, `ReportRead.dfy` | JSON texts, the report writer, its output as a tree, and reading it back |
| `Subscriptions.dfy` | the subscription table and the resubscribe path |
| `CommandPool.dfy` | queues, pool, and all tasks as a state machine |
| `ShadowDelta.dfy` | the versioned register |

In the codec a tag is an element of its own, in front of the element it tags, which is not
counted. `Item` follows that view, `DataItem` is the grammar with tags wrapped around what they
tag, and the grammar file proves that the two views carry the same bytes. An item is *proper*
when, at every depth, no container ends with a tag and every map holds whole pairs.

## Where code and comments differ

The model follows the code. Each difference is a lemma or part of a contract.

- The encoder takes simple value 24 and the parser refuses its two-byte form: `SimpleValueIsRead`
  shows that it is the only one, and the round trip leaves it out.
- The parser passes two forms outside the grammar, both only where a break ends a container: an
  open map closed after a key, and a tag right before the break. `HalfPairAccepted` and
  `LooseTagAccepted` give an input for each, `ExactLanguage` shows that there is nothing else.
- `cbor_value_map_find_value` does not look whether the map has ended after a key that matches. For
  `bf 61 61 ff` and the key "a" it reads ahead behind the map: followed by `05` it returns that
  integer as the value (`OverrunFinds`), followed by `ff` an error and an iterator that still has a
  type (`OverrunFails`). `MapFindValue` has the condition, which is that the matching key is the last
  element before the break, and the outcome.
- The same function advances an iterator that is at the end, which the library asserts never
  happens, where no key matches and the map ends inside a pair or behind a tag, as in `bf 01 ff`
  (`HalfPairTrips`). `MapFindValue` shows that the assertion fails there and nowhere else.
- `cbor_value_validate` without flags is documented to agree with `cbor_value_validate_basic`.
  `VerdictsAgree` says for every head and every iterator when it does. It never accepts more. It
  goes on to what a tag tags, where advancing passes the tag alone (`TagAloneDiffers`, `c1 82`);
  it rejects the two forms above; it charges tags to the nesting budget (`ChargedTagsDiffer`); and
  it nests containers 1023 deep where the parser allows 1024 (`DeepestNestDiffers`).
- The test for sorted maps looks at two flag bits and is met by either, so asking for known
  lengths alone also checks the order of keys, as `KeysMeet` says.
- Keys are ordered by the argument of their head before their bytes, which is not the canonical
  order of section 3.9 of RFC 7049. `AgreeIffConsistent` gives the exact condition for keys that
  are integers, simple values, floats or strings in shortest form. The two agree on keys of one
  such type (`SameTypeAgrees`), can differ on two types (`TypesDisagree`), and can differ on
  containers of one type (`ArraysDisagree`).
- `get_utf8` tests for one byte less than it goes on to read. `GetUtf8` has the exact condition,
  and the dump and the text check have the byte behind the text as a parameter. So the verdict on
  a text can depend on the next item: `82 61 c3 80` passes the validator's test of text and
  `82 61 c3 01` does not (`NextItemCompletesText`).
- `encode_half` drops the sign of whatever rounds to zero, also of the negative zero, and turns a
  NaN whose leading nine fraction bits are clear into an infinity (`SmallNanBecomesInfinite`).
- A shadow document that is newer but has no power state advances the version, and makes the
  final state depend on the order of delivery: `MissingPowerOnDiverges`.

## Model

| member | source | states |
|---|---|---|
| `CborHeads.HeadComplete` | lib/ThirdParty/tinycbor/src/cborparser.c:166-192 | the bytes of any legal head, wherever they stand, are read as that head: major type, width and argument |
| `CborHeads.HeadSound` | lib/ThirdParty/tinycbor/src/cborparser.c:166-192 | whatever is read as a sized head is legal, and its bytes are exactly those that stand there |
| `CborHeads.HeadInBytes` | lib/ThirdParty/tinycbor/src/cborparser.c:166-192 | byte by byte: after which initial bytes, and with how many more in the buffer, a head stands, and which number it has |
| `CborShortest.ShortestIsUnique` | lib/ThirdParty/tinycbor/src/cborencoder.c:279-306 | every legal head reads back as its number; the width the encoder takes is the least possible and no other width has its length |
| `CborShortest.ValidateNumber` | lib/ThirdParty/tinycbor/src/cborvalidation.c:293-322 | without the flag, and for floating-point types, no error; otherwise the error of a head that cannot be read, and an overlong head reported exactly when it is wider than the one the encoder would choose |
| `CborShortest.ValidateOwnNumber` | lib/ThirdParty/tinycbor/src/cborvalidation.c:293-322 | on an element with a number that has been read ahead, with its own type: an error exactly when the flag is set, the head is wider than need be, and the value is no floating-point number |
| `CborShortest.DoubleZeroPasses` | lib/ThirdParty/tinycbor/src/cborvalidation.c:302-303 | the double zero passes, though its head is wider than its number needs |
| `CborShortest.ResolveIndicator` | lib/ThirdParty/tinycbor/src/cborpretty.c:258-301 | marks a number with its width exactly when the head is wider than the one the encoder would choose, and an open length only when asked to |
| `CborSyntax.ItemSound` | lib/ThirdParty/tinycbor/src/cborparser.c:481-507 | whatever the reference recogniser accepts is a well-formed item whose bytes stand there and end where it stops |
| `CborSyntax.ItemComplete` | lib/ThirdParty/tinycbor/src/cborparser.c:481-507 | the bytes of every well-formed item are recognised as that item, and nothing shorter or longer |
| `CborValues.ExtractNumber` | lib/ThirdParty/tinycbor/src/cborparser.c:166-192 | succeeds exactly when the head carries a number that is all in the buffer, returns it and the position behind it; each failure has its error code |
| `CborValues.CborValue.PreparseValue` | lib/ThirdParty/tinycbor/src/cborparser.c:215-299 | succeeds exactly at a legal head, and then type, flags and extra are those of the head; otherwise the end of the data is reported exactly when more bytes could complete a head, and the break, a two-byte simple value below 32 and the reserved information of major type 7 have their own errors, all else one more |
| `CborValues.HeadErrorIs` | lib/ThirdParty/tinycbor/src/cborparser.c:225-265 | where no head stands, which of the five errors it is, and that UnexpectedEOF means that some further bytes would complete one |
| `CborValues.CborValue.PreparseNextNoDecrement` | lib/ThirdParty/tinycbor/src/cborparser.c:301-312 | succeeds exactly when a break ends an open container here or a legal head stands here, and leaves the iterator accordingly |
| `CborValues.CborValue.PreparseNext` | lib/ThirdParty/tinycbor/src/cborparser.c:314-324 | counts one element down unless it was a tag or the container is open, and stops without looking ahead when none is left |
| `CborValues.CborValue.AdvanceInternal` | lib/ThirdParty/tinycbor/src/cborparser.c:326-339 | after a successful look-ahead the second extraction of the number cannot fail, so the assertion never fires; the iterator arrives behind the element |
| `CborValues.CborValue.AdvanceFixed` | lib/ThirdParty/tinycbor/src/cborparser.c:472-479 | on an element, as the assertion demands: passes one atom, exactly when the position behind it is reachable, and reports the end if no element is left |
| `CborValues.CborValue.EnterContainer` | lib/ThirdParty/tinycbor/src/cborparser.c:587-622 | opens exactly the containers whose count fits the iterator; a definite count never equals the value that stands for an open one, so no break byte is taken for its end |
| `CborValues.OpeningIs` | lib/ThirdParty/tinycbor/src/cborparser.c:597-615 | arrays can be entered up to a length of 2^32 - 2 and maps up to 2^31 - 1, with two elements a pair |
| `CborValues.CborValue.LeaveContainer` | lib/ThirdParty/tinycbor/src/cborparser.c:636-642 | takes over the position of the finished child and counts the container as one element |
| `CborValues.CborValue.GetStringChunk` | lib/ThirdParty/tinycbor/src/cborparser.c:996-1043 | yields the next chunk exactly if one of the same type stands there, whatever comes after it, and none exactly at the end of the string when what follows is reachable; so the chunks are those of the string |
| `CborValues.CborValue.IterateStringChunks` | lib/ThirdParty/tinycbor/src/cborparser.c:1080-1121 | succeeds exactly on well-formed strings; the total is the length of the joined chunks, and the outcome is that of copying or comparing the joined chunks as one block, with a terminating zero exactly where there is room |
| `CborValues.CborValue.CopyString` | lib/ThirdParty/tinycbor/src/cborparser.c:1191-1199 | copies the joined chunks, adds a zero exactly when there is room for it, reports lack of memory exactly when the buffer is shorter than the total, and touches nothing behind the buffer |
| `CborValues.CborValue.CalculateStringLength` | lib/ThirdParty/tinycbor/src/cborparser.c:969-973 | the length of the joined chunks, and success exactly on well-formed strings |
| `CborValues.CborValue.AdvanceRecursive` | lib/ThirdParty/tinycbor/src/cborparser.c:481-507 | succeeds exactly when an item within the nesting limit stands here and what follows is reachable, and arrives behind it |
| `CborValues.CborValue.Advance` | lib/ThirdParty/tinycbor/src/cborparser.c:524-530 | on an element, as the assertion demands: succeeds exactly when an item within 1024 nested containers stands here and what follows is reachable, and arrives behind it |
| `CborValues.CborValue.SkipTag` | lib/ThirdParty/tinycbor/src/cborparser.c:560-568 | passes all leading tags and no other element; succeeds exactly when the position behind them is reachable |
| `CborValues.CborValue.ValidateBasic` | lib/ThirdParty/tinycbor/src/cborparser.c:451-455 | leaves the iterator alone and has the verdict of advancing a copy |
| `CborValues.CborValue.GetInt64Checked` | lib/ThirdParty/tinycbor/src/cborparser.c:818-841 | returns the integer exactly when it is within 64 signed bits |
| `CborValues.CborValue.GetIntChecked` | lib/ThirdParty/tinycbor/src/cborparser.c:858-888 | returns the integer exactly when it is within 32 signed bits |
| `CborValues.ParserInit` | lib/ThirdParty/tinycbor/src/cborparser.c:376-385 | an iterator for one element at the start, positioned exactly when a legal head stands there; otherwise the errors of a head, UnexpectedEOF exactly when more bytes could help |
| `CborValues.StringRestIsItem` | lib/ThirdParty/tinycbor/src/cborparser.c:996-1043 | the chunks the iterator yields are those of the item that stands there, and joined they are its content |
| `CborProtocol.Follow` | lib/ThirdParty/tinycbor/src/cborparser.c:301-642 | every run of movements that follows the protocol, chunk by chunk reading included, on any bytes: no assertion of the library fails; the run succeeds exactly if each movement can be made where the one before has led, by the recogniser, and then there are as many iterators as containers are open, each at the position and with the count the recogniser gives; the count has the reserved value exactly inside containers of unknown length |
| `CborTours.AdvanceOnce` | lib/ThirdParty/tinycbor/src/cborparser.c:524-530 | the run of one advance over an untagged document ends at its end exactly if the parser accepts it |
| `CborTours.TourOfContainer` | lib/ThirdParty/tinycbor/src/cborparser.c:481-507 | at any place of any stack, entering a container, advancing over each of its elements and leaving it comes to the same as advancing over it |
| `CborTours.TourOfChunks` | lib/ThirdParty/tinycbor/src/cborparser.c:1080-1121 | taking all chunks of a string and then its end comes to the same as advancing over it |
| `CborTours.CopyIsAdvance` | lib/ThirdParty/tinycbor/src/cborparser.c:1191-1199 | copying a string into a buffer that holds it comes to the same as advancing over it |
| `CborTours.FixedIsAdvance` | lib/ThirdParty/tinycbor/src/cborparser.c:472-479 | advancing by one fixed-size element comes to the same as advancing over it |
| `CborTours.SkipIsAdvance` | lib/ThirdParty/tinycbor/src/cborparser.c:560-568 | skipping tags comes to the same as advancing over each of them |
| `CborValues.CborValue.ExtractInt64` | lib/ThirdParty/tinycbor/src/cborparser.c:351-364 | the number of the head, whether it was read ahead or is still in the buffer |
| `CborSearch.TextStringEquals` | lib/ThirdParty/tinycbor/src/cborparser.c:1219-1233 | true exactly when a text string, behind any tags, has joined chunks equal to the C string and what follows it is reachable, whatever the rest of the container; other types are unequal and no error |
| `CborSearch.MapFindValue` | lib/ThirdParty/tinycbor/src/cborparser.c:1307-1353 | an iterator at the end is advanced, against the assertion, exactly when no key matches and the map ends inside a pair or behind a tag; a match right before the break reads ahead behind the map, and only there can an error leave a type behind; otherwise what follows the first matching text key is returned exactly when all up to it can be passed, also in maps that are malformed further on; on every map of whole pairs within the nesting limit there is no error |
| `CborSearch.OverrunFinds` | lib/ThirdParty/tinycbor/src/cborparser.c:1328-1329 | in an open map of the key "a" alone, the integer behind the map is returned as its value |
| `CborSearch.OverrunFails` | lib/ThirdParty/tinycbor/src/cborparser.c:1328-1329 | with a break behind that map, an error and an iterator that has a type |
| `CborSearch.HalfPairTrips` | lib/ThirdParty/tinycbor/src/cborparser.c:1330-1343 | an open map of one integer advances an iterator at its end |
| `CborGrammar.FlattenReadsAs` | lib/ThirdParty/tinycbor/src/cborparser.c:481-507 | every item of the grammar of section 2 of RFC 7049, tags nested around what they tag, is a well-formed run of iterator elements with the same bytes and depth |
| `CborGrammar.UnflattenLegal` | lib/ThirdParty/tinycbor/src/cborparser.c:481-507 | every proper run of elements is a list of items of the grammar, one for each untagged element |
| `CborGrammar.ExactLanguage` | lib/ThirdParty/tinycbor/src/cborparser.c:481-530 | for every byte sequence, position and length: an untagged item of the grammar nested at most 1024 deep stands there exactly when the parser accepts there, ends at its end, and the item is proper |
| `CborGrammar.CountedLanguage` | lib/ThirdParty/tinycbor/src/cborparser.c:481-530 | where no container ends with a break, the parser accepts exactly the grammar |
| `CborGrammar.Unambiguous` | lib/ThirdParty/tinycbor/src/cborparser.c:481-507 | no item of the grammar has bytes that begin the bytes of another |
| `CborGrammar.GrammarDecided` | lib/ThirdParty/tinycbor/src/cborparser.c:524-530 | whether any item of the grammar stands at the start is decided by the parser and the two excluded forms |
| `CborGrammar.HalfPairAccepted` | lib/ThirdParty/tinycbor/src/cborparser.c:481-507 | an open map closed after a key is accepted although no item of the grammar stands there |
| `CborGrammar.LooseTagAccepted` | lib/ThirdParty/tinycbor/src/cborparser.c:481-507 | a tag right before the break of an open array is accepted although no item of the grammar stands there |
| `CborGrammar.AdvanceDocument` | lib/ThirdParty/tinycbor/src/cborparser.c:524-530 | set up and advanced once on any bytes, the parser ends within the buffer and succeeds exactly on the accepted language; without a head at the start UnexpectedEOF means exactly that more bytes could complete one |
| `CborEncoders.CborEncoder.AppendToBuffer` | lib/ThirdParty/tinycbor/src/cborencoder.c:256-272 | the bytes are emitted; those that fit before the first overflow are in the buffer and nothing is written after it, while the position goes on counting what is needed |
| `CborEncoders.CborEncoder.EncodeNumberNoUpdate` | lib/ThirdParty/tinycbor/src/cborencoder.c:279-306 | emits the shortest head |
| `CborEncoders.CborEncoder.EncodeUInt` | lib/ThirdParty/tinycbor/src/cborencoder.c:326-329 | emits the shortest head of the integer and counts one element |
| `CborEncoders.CborEncoder.EncodeNegativeInt` | lib/ThirdParty/tinycbor/src/cborencoder.c:339-342 | emits the head of the negated value, with zero standing for the least integer |
| `CborEncoders.CborEncoder.EncodeInt` | lib/ThirdParty/tinycbor/src/cborencoder.c:350-357 | emits the head of the signed value with its major type |
| `CborEncoders.CborEncoder.EncodeSimpleValue` | lib/ThirdParty/tinycbor/src/cborencoder.c:366-374 | refuses 25 to 31 without any effect and emits all other simple values, 24 included |
| `CborEncoders.CborEncoder.EncodeFloatingPoint` | lib/ThirdParty/tinycbor/src/cborencoder.c:387-403 | emits the type byte and the bits in big-endian order |
| `CborEncoders.CborEncoder.EncodeTag` | lib/ThirdParty/tinycbor/src/cborencoder.c:410-414 | emits the tag and counts no element |
| `CborEncoders.CborEncoder.EncodeString` | lib/ThirdParty/tinycbor/src/cborencoder.c:416-456 | emits head and payload and counts one element |
| `CborEncoders.CborEncoder.Child` | lib/ThirdParty/tinycbor/src/cborencoder.c:461-482 | the item counter of a child is one more than the promise, without wrap-around up to the largest length |
| `CborEncoders.CborEncoder.CreateMap` | lib/ThirdParty/tinycbor/src/cborencoder.c:522-527 | refuses exactly the maps whose number of items does not fit size_t; others promise two items a pair |
| `CborEncoders.CborEncoder.CreateArray` | lib/ThirdParty/tinycbor/src/cborencoder.c:498-501 | opens an array that promises its length |
| `CborEncoders.CborEncoder.CloseContainer` | lib/ThirdParty/tinycbor/src/cborencoder.c:541-557 | no error exactly when the promised number of elements was added and everything fits, too many or too few otherwise; an open container gets its break |
| `CborEncoders.CborEncoder.GetBufferSize` | lib/ThirdParty/tinycbor/src/cbor.h:255-258 | the number of bytes used, which are the whole encoding |
| `CborEncoders.CborEncoder.GetExtraBytesNeeded` | lib/ThirdParty/tinycbor/src/cbor.h:260-263 | zero when the encoding fitted, and otherwise exactly what it is longer than the buffer |
| `CborRuns.PerformAll` | lib/ThirdParty/tinycbor/src/cborencoder.c:256-557 | any properly nested run of calls emits its full encoding and counts its weight, whatever the room; it reports no error exactly when no call is refused, all promises are met and there is room |
| `CborRuns.Encode` | lib/ThirdParty/tinycbor/src/cborencoder.c:203-557 | conservation: for any buffer size what is written is a prefix of the full encoding, the rest of the buffer is unchanged, and the full length is the bytes used when it fits and else the size plus the extra bytes |
| `CborRoundTrip.EncodesItem` | lib/ThirdParty/tinycbor/src/cborencoder.c:326-557 | the bytes of a readable call are those of the item it stands for |
| `CborRoundTrip.MeaningOfItem` | lib/ThirdParty/tinycbor/src/cborencoder.c:326-557 | that item means what the call said |
| `CborRoundTrip.ReadElements` | lib/ThirdParty/tinycbor/src/cborparser.c:481-642 | a reader made of the iterator's operations rebuilds the values of every well-formed run |
| `CborRoundTrip.EncodeThenRead` | lib/ThirdParty/tinycbor/src/cborencoder.c:203-557 | round trip: every readable document encoded into any buffer that holds it is read back, through init, enter, getters, string copies, advance and leave, as exactly what was encoded |
| `CborRoundTrip.SimpleValueIsRead` | lib/ThirdParty/tinycbor/src/cborencoder.c:366-374 | of the simple values the encoder takes, all but 24 can be read back |
| `CborRoundTrip.SameMeaningSameBytes` | lib/ThirdParty/tinycbor/src/cborencoder.c:203-557 | two readable calls mean the same exactly if they emit the same bytes |
| `CborRoundTrip.ReadableIffMeant` | lib/ThirdParty/tinycbor/src/cborencoder.c:203-557 | of the calls made without error, those that the round trip covers are exactly the ones whose meaning any item of the parser has |
| `CborLookup.EncodeThenFind` | lib/ThirdParty/tinycbor/src/cborparser.c:1307-1353 | a map of text keys, counted or open, written by the encoder and searched in the bytes: the value read where the search ends is what was put first under the key, and nothing is found exactly if the key is missing |
| `CborValidator.FindTag` | lib/ThirdParty/tinycbor/src/cborvalidation.c:243-266 | the search that stops at the first larger tag finds every known tag |
| `CborValidator.CheckTag` | lib/ThirdParty/tinycbor/src/cborvalidation.c:324-374 | which tags are admitted before which types, written out for all 22 known tags, and which unknown tags each of the three flags rejects |
| `CborValidator.LexLessIs` | lib/ThirdParty/tinycbor/src/cborvalidation.c:489-493 | byte strings are ordered by their first difference, and a beginning is below the whole |
| `CborValidator.CompareKeysIsOrder` | lib/ThirdParty/tinycbor/src/cborvalidation.c:478-503 | the neighbour test is a strict order on head argument and bytes, and zero exactly on equal keys |
| `CborValidator.KeyLessIsStrictOrder` | lib/ThirdParty/tinycbor/src/cborvalidation.c:478-503 | the order is irreflexive and transitive |
| `CborValidation.ValidateValue` | lib/ThirdParty/tinycbor/src/cborvalidation.c:514-637 | succeeds exactly when a value stands here that the checks admit within the budget and what follows is reachable; chunks are tested at their place in the buffer; the budget never goes below zero |
| `CborValidation.ValidateContainer` | lib/ThirdParty/tinycbor/src/cborvalidation.c:440-512 | succeeds exactly when the elements are admitted and complete; a budget used up is an error |
| `CborValidation.ValidateTagged` | lib/ThirdParty/tinycbor/src/cborvalidation.c:584-597 | a tag costs one of the budget and must be followed by an admitted value |
| `CborValidation.CheckOrder` | lib/ThirdParty/tinycbor/src/cborvalidation.c:478-503 | on two slices of the buffer, exactly the order of the keys in them |
| `CborAdmission.AdmittedItem` | lib/ThirdParty/tinycbor/src/cborvalidation.c:514-637 | for any flags an untagged item is admitted exactly when it is proper, costs less than the budget, and every element in it at any depth meets what the flags ask, each written out |
| `CborAdmission.AdmittedValue` | lib/ThirdParty/tinycbor/src/cborvalidation.c:324-374 | the same for a value with its tags, each of which must fit what comes after it |
| `CborAdmission.AdmittedPairs` | lib/ThirdParty/tinycbor/src/cborvalidation.c:440-512 | the pairs of a map are admitted exactly when their elements are and all keys, not only neighbours, are in order: never descending with the flag for known lengths or for sorted keys, ascending with those for unique keys; no map is rejected for keys in order |
| `CborAdmission.KeyStep` | lib/ThirdParty/tinycbor/src/cborvalidation.c:478-503 | the test of neighbours puts all keys in order |
| `CborAdmission.AdmittedChunks` | lib/ThirdParty/tinycbor/src/cborvalidation.c:554-582 | each chunk of a text is tested at its own place |
| `CborValidationLaws.ValidationIs` | lib/ThirdParty/tinycbor/src/cborvalidation.c:653-662 | for any flags and wherever the iterator is: what is accepted is exactly a proper value of cost below 1024, every element of which meets the flags, with a reachable successor |
| `CborValidationLaws.Validate` | lib/ThirdParty/tinycbor/src/cborvalidation.c:653-662 | the entry point accepts exactly the proper values of cost below 1024 whose elements meet the flags, wherever the iterator is, and stops where the value ends, behind the break that ends an open container |
| `CborValidationLaws.ValidatorRefinesParser` | lib/ThirdParty/tinycbor/src/cborvalidation.c:514-637 | with any checks and in any container: an accepted untagged item can be passed by the parser too, both end at the same byte, and it is an item of the grammar nested at most 1023 deep |
| `CborValidationLaws.ValidateThenAdvance` | lib/ThirdParty/tinycbor/src/cborvalidation.c:638-641 | once an untagged element is valid, advancing succeeds and stops where validation did |
| `CborValidationLaws.AdmittedKeysDistinct` | lib/ThirdParty/tinycbor/src/cborvalidation.c:440-512 | with the three flag bits for unique keys, whatever the others are, the keys of every map at every depth of an admitted item differ in their bytes |
| `CborValidationLaws.AcceptedKeysDistinct` | lib/ThirdParty/tinycbor/src/cborvalidation.c:653-662 | the same for all that the entry point accepts |
| `CborValidationLaws.DuplicateRejected` | lib/ThirdParty/tinycbor/src/cborvalidation.c:497-498 | a2 01 00 01 00 is rejected whenever these bits are set |
| `CborBasicValidation.BasicValidation` | lib/ThirdParty/tinycbor/src/cborvalidation.c:645-662 | without flags the validator accepts, tagged or not and in any container, exactly the values of the grammar whose containers and tags cost less than 1024 and whose successor is reachable |
| `CborBasicValidation.VerdictsAgree` | lib/ThirdParty/tinycbor/src/cborvalidation.c:645-662 | for every head: the validator without flags accepts no more than the basic validation, and the two agree exactly when the parser cannot get past the first element or the whole value is there, proper, within the budget and followed by something reachable |
| `CborBasicValidation.BothVerdicts` | lib/ThirdParty/tinycbor/src/cborvalidation.c:653-662 | both methods on one iterator give the two verdicts |
| `CborBasicValidation.TagAloneDiffers` | lib/ThirdParty/tinycbor/src/cborparser.c:451-455 | a tag before an array that is not all there: only the basic validation accepts |
| `CborBasicValidation.ChargedTagsDiffer` | lib/ThirdParty/tinycbor/src/cborvalidation.c:584-597 | an array of one number with 1023 tags: only the basic validation accepts |
| `CborBasicValidation.DeepestNestDiffers` | lib/ThirdParty/tinycbor/src/cborvalidation.c:440-447 | arrays 1024 deep: only the basic validation accepts |
| `CborKeyOrder.AgreeIffConsistent` | lib/ThirdParty/tinycbor/src/cborvalidation.c:478-503 | for every two untagged atoms or strings with shortest heads, the order is that of section 3.9 of RFC 7049 exactly when arguments, sizes and major types of the heads are consistent |
| `CborKeyOrder.SameTypeAgrees` | lib/ThirdParty/tinycbor/src/cborvalidation.c:478-503 | the two orders agree on integers of one sign, on simple values and floats, and on strings of one type |
| `CborKeyOrder.TypesDisagree` | lib/ThirdParty/tinycbor/src/cborvalidation.c:478-490 | an integer and a text that section 3.9 orders the other way round |
| `CborKeyOrder.ArraysDisagree` | lib/ThirdParty/tinycbor/src/cborvalidation.c:478-490 | 82 01 02 and 81 63 61 62 63, two arrays that section 3.9 orders the other way round |
| `CborTextValidation.TestChunk` | lib/ThirdParty/tinycbor/src/cborvalidation.c:270-280 | the test of text, as the validator makes it on a chunk of its buffer |
| `CborTextValidation.AdmittedText` | lib/ThirdParty/tinycbor/src/cborvalidation.c:554-582 | a text that passes decodes, by itself or with the byte behind it |
| `CborTextValidation.NextItemCompletesText` | lib/ThirdParty/tinycbor/src/cborvalidation.c:554-582 | 82 61 c3 80 passes with the test of text and 82 61 c3 01 does not |
| `Utf8.GetUtf8` | lib/ThirdParty/tinycbor/src/utf8_p.h:32-102 | accepts exactly the sequences of section 4 of RFC 3629 and returns the character that encodes to them; of the bytes announced the last may lie one past the end |
| `Utf8Dump.DecodeEncoded` | lib/ThirdParty/tinycbor/src/utf8_p.h:32-102 | decoding the encoding of any characters gives them back |
| `Utf8Dump.EveryCodePointIsText` | lib/ThirdParty/tinycbor/src/utf8_p.h:32-102 | every code point but the surrogates decodes from the bytes section 3 of RFC 3629 gives |
| `Utf8Dump.ValidateUtf8` | lib/ThirdParty/tinycbor/src/cborvalidation.c:270-280 | accepts exactly the texts that decode, or that decode with the byte behind them |
| `Utf8Dump.OverReadAccepts` | lib/ThirdParty/tinycbor/src/utf8_p.h:68-72 | c3 alone is no text; it is accepted before 80 and rejected before 01 |
| `Utf8Dump.EscapedDump` | lib/ThirdParty/tinycbor/src/cborpretty.c:197-256 | dumps exactly the texts the decoder accepts, as the escapes of their characters |
| `Utf8Dump.EscapeIs` | lib/ThirdParty/tinycbor/src/cborpretty.c:197-256 | printable ASCII but quote and backslash stays as it is, seven characters have their letter, all others become four upper-case hexadecimal digits or a surrogate pair |
| `Utf8Dump.DumpIsFaithful` | lib/ThirdParty/tinycbor/src/cborpretty.c:197-256 | unescaping a dump as in section 7 of RFC 8259, with surrogate pairs joined, gives the characters of the text |
| `HalfFloats.EncodeHalf` | lib/ThirdParty/tinycbor/src/cborinternal_p.h:52-83 | every finite double becomes the greatest finite half of no larger magnitude; the sign is kept unless the magnitude is below the smallest half; a NaN stays one exactly when one of its nine leading fraction bits is set, else it becomes an infinity |
| `HalfFloats.DecodeByCode` | lib/ThirdParty/tinycbor/src/cborinternal_p.h:86-95 | decoding in terms of exponent and fraction taken together, which order the finite magnitudes |
| `HalfFloats.RoundsDownUnique` | lib/ThirdParty/tinycbor/src/cborinternal_p.h:52-83 | the rounded half is the only one with that property |
| `HalfFloats.ExactHalvesSurvive` | lib/ThirdParty/tinycbor/src/cborinternal_p.h:52-83 | a double that is a finite half keeps its magnitude |
| `HalfFloats.NegativeZeroBecomesPositive` | lib/ThirdParty/tinycbor/src/cborinternal_p.h:76-78 | the negative zero loses its sign |
| `HalfFloats.SmallNanBecomesInfinite` | lib/ThirdParty/tinycbor/src/cborinternal_p.h:61-64 | a NaN with only its last fraction bit set becomes the positive infinity |
| `ReportBuilders.WriteArray` | source/defender-tools/report_builder.c:199-440 | an array writer succeeds exactly when text and one more byte fit, writes exactly the elements with commas between them, and nothing outside its part of the buffer |
| `ReportBuilders.WritePortsArray` | source/defender-tools/report_builder.c:199-275 | the same for ports |
| `ReportBuilders.WriteConnectionsArray` | source/defender-tools/report_builder.c:278-362 | the same for connections with dotted quads |
| `ReportBuilders.WriteTaskIdsArray` | source/defender-tools/report_builder.c:365-440 | the same for task ids |
| `ReportBuilders.GenerateJsonReport` | source/defender-tools/report_builder.c:443-693 | the report is the rendering of the metrics, its length is exact, it succeeds exactly when rendering and NUL fit the given length, and nothing behind that length is written |
| `JsonTexts.DecimalRoundTrip` | source/defender-tools/report_builder.c:54-62 | decimal texts read back as their number and have no superfluous zero |
| `JsonTexts.PrintParses` | source/defender-tools/report_builder.c:54-116 | every tree of plain strings and numbers prints as JSON that parses to the same tree |
| `ReportParses.ArrayIsPrinted` | source/defender-tools/report_builder.c:199-440 | an array written element by element is the printed form of the list of their trees |
| `ReportParses.ReportIsPrinted` | source/defender-tools/report_builder.c:443-693 | the five parts and four arrays together are the printed form of one JSON tree |
| `ReportReads.AddressIsRead` | source/defender-tools/report_builder.c:295-310 | a dotted quad and port read back as the 32-bit address and the port |
| `ReportReads.ReportIsRecovered` | source/defender-tools/report_builder.c:443-693 | the text of every report is JSON of RFC 8259, and looking up its keys recovers version, number, ports, connections, counters and task ids |
| `ReportReads.ReportLookups` | source/defender-tools/report_builder.c:443-693 | by which chain of keys each number, port, connection and task id is found in the text |
| `ReportReads.ReportsDiffer` | source/defender-tools/report_builder.c:443-693 | different metrics or stamps never have the same report |
| `Subscriptions.SubscriptionTable.Add` | source/subscription-manager/subscription_manager.c:39-97 | accepts exactly if there is a filter and a callback, whatever the context, and the subscription is there already or the table has room; a new one takes the first free slot, and otherwise nothing changes |
| `Subscriptions.SubscriptionTable.Remove` | source/subscription-manager/subscription_manager.c:101-130 | all subscriptions of the filter go and no other slot changes |
| `Subscriptions.SubscriptionTable.HandleIncomingPublishes` | source/subscription-manager/subscription_manager.c:134-170 | the callbacks made are the matching subscriptions in slot order, each exactly once; handled exactly when there is one |
| `Subscriptions.SubscriptionTable.CollectFilters` | source/mqtt-agent-task.c:558-591 | the subscribe list is the filters of the used slots in order, as many as there are subscriptions |
| `Subscriptions.SubscriptionTable.HandleResubscribed` | source/mqtt-agent-task.c:622-652 | success changes nothing; otherwise exactly the slots of refused filters are cleared |
| `Subscriptions.SubscriptionTable.PerformAll` | source/subscription-manager/subscription_manager.c:39-130 | any run of adds, removes and failed resubscriptions acts on the slots as on a set of at most ten |
| `Subscriptions.RoomIffFree` | source/subscription-manager/subscription_manager.c:62-75 | a slot is free exactly when the set is below its capacity |
| `Subscriptions.MatchedOnce` | source/subscription-manager/subscription_manager.c:149-166 | walking the slots meets every matching subscription of the set exactly once |
| `Subscriptions.MatchingInOrder` | source/subscription-manager/subscription_manager.c:149-166 | the callbacks are those of the matching slots in the order of the slots |
| `Subscriptions.FiltersInOrder` | source/mqtt-agent-task.c:571-585 | the subscribe list has the filters of the used slots in the order of the slots |
| `Subscriptions.PresentIffAccepted` | source/subscription-manager/subscription_manager.c:39-130 | after any run a subscription is present exactly when it has a filter and a callback, was added while there was room, and its filter was not removed or refused since |
| `Subscriptions.WithoutAllIs` | source/mqtt-agent-task.c:634-645 | of several answers exactly the refused filters lose their subscriptions |
| `Subscriptions.AllRefusedEmpties` | source/mqtt-agent-task.c:571-645 | a resume whose filters are all refused empties the table, so the subscribe list leaves none out |
| `CommandPools.MessageContext.MessageSend` | lib/FreeRTOS/mqtt-agent-interface/freertos_agent_message.c:46-58 | appends exactly when the queue is not full |
| `CommandPools.MessageContext.MessageReceive` | lib/FreeRTOS/mqtt-agent-interface/freertos_agent_message.c:62-74 | takes the oldest command exactly when there is one |
| `CommandPools.CommandPool.InitializePool` | lib/FreeRTOS/mqtt-agent-interface/freertos_command_pool.c:71-100 | every command is queued once, no send fails, and a second call changes nothing |
| `CommandPools.CommandPool.GetCommand` | lib/FreeRTOS/mqtt-agent-interface/freertos_command_pool.c:104-121 | hands out the oldest free command, or none exactly when the pool is empty |
| `CommandPools.CommandPool.ReleaseCommand` | lib/FreeRTOS/mqtt-agent-interface/freertos_command_pool.c:125-145 | takes back exactly the commands of the pool; given that the queue has room, the assertion does not fire |
| `CommandPools.StepKeepsPlaces` | lib/FreeRTOS/mqtt-agent-interface/freertos_command_pool.c:104-145 | each atomic step of any task moves one command from one place to another or changes nothing |
| `CommandPools.AlwaysPartitioned` | lib/FreeRTOS/mqtt-agent-interface/freertos_command_pool.c:71-145 | in every interleaving of steps by which tasks send and release only what they hold, each command is in exactly one place |
| `CommandPools.Safety` | lib/FreeRTOS/mqtt-agent-interface/freertos_command_pool.c:71-145 | after any run from the start: both queues have room for whatever is held, no free command is held or queued elsewhere or free twice, and all ten are free again when nobody holds or has queued one |
| `CommandPools.DoubleReleaseDuplicates` | lib/FreeRTOS/mqtt-agent-interface/freertos_command_pool.c:125-145 | releasing a command twice puts it in the pool twice, so the duty of the callers is needed |
| `CommandPools.Agent.Perform` | source/configuration-files/core_mqtt_config.h:44-45 | which command each step takes from the front of which queue, and where it goes; sends to the agent and releases always succeed |
| `CommandPools.Agent.PerformAll` | source/configuration-files/core_mqtt_config.h:44-45 | the same for every interleaving |
| `ShadowDeltas.ShadowDevice.HandleDelta` | source/demo-tasks/shadow_device_task.c:402-511 | a document moves the register exactly when it is valid and newer, and sets the power state if it carries one; the version never goes back |
| `ShadowDeltas.ShadowDevice.HandleAll` | source/demo-tasks/shadow_device_task.c:402-511 | any sequence of documents acts on the register as its steps |
| `ShadowDeltas.VersionIsTop` | source/demo-tasks/shadow_device_task.c:455-475 | the version ends at the highest one delivered, whatever the order |
| `ShadowDeltas.ConvergesIffSettled` | source/demo-tasks/shadow_device_task.c:402-511 | all orders and repetitions of a set of documents end alike exactly when all documents of the highest newer version carry one power state or no newer document would change it; both can be seen before any is delivered |
| `ShadowDeltas.CompleteDocumentsConverge` | source/demo-tasks/shadow_device_task.c:402-511 | documents with positive versions and power states, equal for equal versions, always converge |
| `ShadowDeltas.CompleteDocumentsEnd` | source/demo-tasks/shadow_device_task.c:402-511 | they end with the version and power state of the highest document, if it is newer |
| `ShadowDeltas.MissingPowerOnDiverges` | source/demo-tasks/shadow_device_task.c:475-497 | a newer document without a power state makes the outcome depend on the order |

## Left out

- CborRoundTrip.EncodeThenRead: leaves out simple value 24, a tag that ends a counted container, and counts beyond the 32-bit limits of the parser, because none of these can be read back.
- CborProtocol.Follow: covers movements, tag skipping, string copies and single chunks on one stack of iterators; getters do not move an iterator, and what a caller does with an iterator after an error is not part of this model.
- CborValues.CborValue.Advance: says when it succeeds and not which error a malformed item gets; the error for a single head is exact.
- CborSearch.MapFindValue: does not say which error a malformed or too deeply nested map gives.
- CborShortest.ValidateNumber: is proved by itself and not inside whole-item validation, because the flag for shortest integers re-reads a head behind the last chunk of a string; the flag for complete data, which tests the iterator that was not moved, is left out.
- CborValidation.ValidateValue: gives when it succeeds and not which error a rejected item gets; the test of floating-point values is an arbitrary predicate of width and bits, and that of text chunks one of position and length in the buffer, so the results hold for any such tests. `TestChunk` is the actual test of text.
- CborValidationLaws.Validate: requires that sorted or unique keys are asked for together with known lengths, as the named flags do; the sort bit alone would compare uninitialised numbers.
- HalfFloats.EncodeHalf: doubles are bit patterns and their magnitudes exact integers; hardware conversion of the alternative build is not modelled.
- ReportBuilders.WriteArray: stands for three loops that differ in their format only; the format is a parameter.
- ReportReads.ReportIsRecovered: the key constants are defined outside this repository, so they are parameters that must be free of quotes, backslashes and control characters and differ within one object.
- Subscriptions.SubscriptionTable.HandleIncomingPublishes: topic matching of section 4.7 of MQTT 3.1.1 is a parameter, and callbacks do not change the table.
- CommandPools.Agent.Perform: steps are atomic queue operations; blocking, timing and the agent's use of a command are not part of this model.
- ShadowDeltas.ShadowDevice.HandleDelta: starts from the decoded version and power state; the JSON library and number conversion are not part of this model, nor are the accepted and rejected callbacks.
- Width of `size_t`: 32 or 64 bits through one parameter; differences of pointers do not overflow, so buffers are at most half the address space.
- C structure assignment of iterators is a copying constructor, and the encoder's union of pointer and count is one position whose meaning follows from whether the end is set.
- Loops that serve several cases are helper methods of their own: `PreparseNumber`, `AdvanceElements`, `AdvanceContainer`, `TryPair`, `ValidatePair`, `TestOrder`, `ValidateInRun`, `WriteElement`; the report writer returns early where the source skips the remaining steps.
- Filters are compared as whole strings; the source compares length and `strncmp`, which agrees on filters without a NUL, and the table keeps the caller's pointer.
- `snprintf` always succeeds in forming its text; the failure for texts longer than the largest `int` cannot occur with keys of ordinary length.
- The rest of the pretty printer, duplicated strings, conversion of floats to text, and error strings: input and output or tables.
- The over-the-air update path with its suspend and resume, sockets, TLS, MQTT connection and backoff: input and output, or code outside this repository.
