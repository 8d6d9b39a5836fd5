# Nouns: image codec, subgraph ledger and composer, in Dafny

A Dafny model of the parts of the Nouns monorepo that compute something hard, with proofs of what
they are for.

* **Image codec** (`Hex`, `RunLength`, `Svg`, `SvgBuilder`, `OrderedMaps`, `Images`, `Encoder`,
  `Rendering`, `Composer`). `Image.toRLE` crops an image, maps colours to slots of a palette shared
  by a whole collection, run-length encodes the slots across line breaks and prints hex. The decoder
  parses the hex, and the builder walks a cursor that splits runs at the right bound and emits
  rectangles. An SVG document is an ordered list of rectangles under the painter's model (sections
  3.2 and 3.3 of SVG 1.1). The end-to-end result is `Rendering.RenderRoundTripIff`, extended to
  whole collections, to layered parts with a common palette or their own, and to stored palettes.
* **Subgraph** (`MapSums`, `Entities`, `Ledger`, `LedgerInvariants`, `LedgerCounters`, `Quorum`,
  `Dao`, `DaoInvariants`, `Runs`, `RepresentedHolders`, `Books`, `Occurrences`, `ProposalHistory`,
  `LedgerHistory`, `Subgraph`). The handlers form an event-driven state machine over accounts,
  delegates, nouns, proposals, votes and global counters. Loading an entity takes a copy and saving
  writes it back, so the order of loads and saves is part of the model. `Subgraph` holds the
  handlers as methods that change fields in place; each is proved equal to a function on the store,
  and the invariants are proved about those functions: for one event as an if-and-only-if, for whole
  runs, and for any stream of events of both contracts (`Books.StreamIff`). Beside that the store is
  described by the log of events alone: the fields of a proposal, votes, balances, owners, delegates
  and listed nouns are those of the last event that set them, or counts and sums over events
  (`ProposalHistory.ProposalsAreTheirEvents`, `LedgerHistory.LedgerIsItsEvents`).
* **Web application and assets** (`AuctionSlice`, `AuctionHistory`, `Netting`, `MarketIndex`,
  `LogKeys`, `LogFetch`, `Seeds`). Bids that arrive in any order, transfer events netted into
  holdings, the incremental event index, log queries keyed by text, and seeds cut out of a hash.

Results that say where the code does *not* do what its comments or callers suppose:

* A delegate change keeps the subgraph's lists right only if it names the recorded delegate, changes
  it, and the delegator holds a noun (`LedgerInvariants.DelegateChangedKeepsIff`). A self-transfer
  works on a stale copy: right after a mint it lists the noun twice
  (`LedgerCounters.SelfTransferListsTwice`; the exact condition is `LedgerCounters.TransferIff`).
* `totalDelegates` is not the number of delegates: a handler's stale copy of the governance entity
  overwrites the increment. It is right exactly after runs in which no transfer or votes change
  created a delegate, and otherwise short by the number of such events (`Runs.DelegateCounterIff`,
  `Runs.GapCountsOpenings`; the first mint is an input, `LedgerCounters.FirstMintIsNotCounted`).
* `tokenHoldersRepresentedAmount` is not the number of represented holders, because transfers leave
  it alone: the first mint is an input (`RepresentedHolders.FirstMintIsNotRepresented`). One
  delegate's field is right exactly when as many transfers gave it a holder as took one away
  (`RepresentedHolders.FieldIsRightIff`), and all fields are right exactly when no noun has been
  transferred yet, not even minted (`RepresentedHolders.AllFieldsRightIff`).
* Slot numbers and key order of a seeded encoder agree exactly when the seed has the empty key in
  slot 0 and no duplicates, or has its first colour again in slot 1 and no other duplicate
  (`Encoder.SeedWorksIff`). Under any seed, exactly those pixels render whose colour is new or has a
  printed slot of its own (`Rendering.RenderRoundTripIff`). An encoded image draws the same
  rectangles under every later palette exactly when every slot it prints is below the number of keys
  at that moment (`Rendering.KeepsDrawingIff`); a seed that repeats a colour gives that colour a
  slot beyond the keys (`Rendering.RepeatedSeedMoves`).
* A decoded image equals the encoded one exactly when every bound and slot fits one byte
  (`Rendering.DecodeAfterEncodeIff`).
* A log filter does not come back from its key if it has a wildcard or empty topic, a list of one, a
  start block or an empty address; a wildcard becomes the topic NUL (`LogKeys.FilterRoundTripIff`,
  `LogKeys.WildcardIsLost`). The key itself, which decides where a reply is stored, survives exactly
  when the address has no colon, topics are present and not empty, and no topic text has a colon, is
  empty, or starts with, ends with or doubles a dash (`LogKeys.FilterKeyStableIff`,
  `LogFetch.ReplyLandsIff`).
* A removal of a listener that comes before the first one is added is not counted, and a marking
  with an earlier block undoes one with a later block (`LogFetch.SelectedIff`).
* A seed part is the 48-bit field of the hash exactly when the shifted value is at least 2^40;
  below that the slice keeps its `0x` and parsing throws (`Seeds.PartIsFieldIff`).
* The bids kept depend on the order of arrival if two bids share a transaction hash, and amount and
  bidder may too; the bidder also does if equal greatest bids come from different senders. The exact
  conditions are `AuctionSlice.BidsConvergeIff`, `AuctionSlice.AmountConvergesIff` and
  `AuctionSlice.BidderConvergesIff`.
* An index run drops an event whose id an earlier run saw; the listings shown are right exactly if no
  open listing is lost that way (`MarketIndex.ListingsThroughIndexIff`).

## Model

| member | source | states |
|---|---|---|
| `Rendering.RenderRoundTripIff` | packages/nouns-sdk/src/image/svg-builder.ts:7-86 | for every image, every colour map and every later palette of its encoder, as long as all numbers fit a byte: decoding the encoded text and painting the rectangles gives a point its pixel's colour where alpha is not 0 and leaves it undrawn elsewhere, inside and outside the box, if and only if the map accepted that colour before encoding; with 8-bit channels that colour parses to the pixel's red, green and blue |
| `Rendering.RenderRoundTrip` | packages/nouns-sdk/src/image/svg-builder.ts:7-86 | with a well-seeded encoder this holds at every point of every image, and the fill parsed in pairs of digits is the pixel's red, green and blue, the fully transparent and the empty one included |
| `Rendering.GoodSeedIsWell` | packages/nouns-sdk/src/image/png-collection-encoder.ts:15-18 | an encoder starts well seeded if and only if its seed is a good one |
| `Rendering.DecodeAfterEncodeIff` | packages/nouns-sdk/src/image/image.ts:36-65 | for every image and colour map: the decoder reads back box and runs if and only if the box and all slots used fit one byte each |
| `Rendering.RunRendersEveryImage` | packages/nouns-sdk/src/image/png-collection-encoder.ts:30-51 | every image of a collection whose own numbers fit bytes still renders as itself under the palette the collection ends with, in red, green and blue |
| `Rendering.BoxShowsImageIff` | packages/nouns-sdk/src/image/image.ts:41-54 | the index stream laid out line by line in the crop box gives a pixel its colour exactly if the colour map accepted it, and outside the box nothing is opaque |
| `Rendering.EncodedIsLaidOut` | packages/nouns-sdk/src/image/image.ts:56-65 | the text holds, in pairs of digits behind `0x`, the palette index 0, top, right, bottom and left of the box, and then a length and a slot for each run |
| `Rendering.KeepsDrawingIff` | packages/nouns-sdk/src/image/png-collection-encoder.ts:30-51 | an encoded image draws the same rectangles under every later palette of its encoder if and only if every slot it prints is below the number of keys at that moment |
| `Rendering.RepeatedSeedMoves` | packages/nouns-sdk/src/image/png-collection-encoder.ts:15-18 | after a seed of four times one colour, an opaque one-pixel image in that colour draws differently under some later palette |
| `RunLength.Lossless` | packages/nouns-sdk/src/image/image.ts:71-91 | expanding the runs gives back the stream; every count is in 1..255 and neighbours share a colour only after a full run |
| `RunLength.Optimal` | packages/nouns-sdk/src/image/image.ts:76-85 | no run list with counts of at most 255 that expands to the same stream has fewer runs |
| `Images.Image.Encode` | packages/nouns-sdk/src/image/image.ts:71-91 | the loop prints exactly those runs; `tuples` receives all of them but the last |
| `Images.Image.CalcBounds` | packages/nouns-sdk/src/image/image.ts:93-120 | the four scans compute the specified crop box |
| `Images.Image.IsTransparentRow` | packages/nouns-sdk/src/image/image.ts:131-138 | true exactly when every pixel of the row has alpha 0 |
| `Images.Image.IsTransparentColumn` | packages/nouns-sdk/src/image/image.ts:122-129 | true exactly when every pixel of the column has alpha 0 |
| `Images.CropBoxEncloses` | packages/nouns-sdk/src/image/image.ts:93-120 | the box lies inside the image and contains every opaque pixel; without opaque pixels it is 0,0,0,0, and its bottom is -1 for an image without rows |
| `Images.CropBoxTouches` | packages/nouns-sdk/src/image/image.ts:93-120 | if anything is opaque, the top row, bottom row, left column and column right-1 each hold an opaque pixel |
| `Images.CropBoxIsLeast` | packages/nouns-sdk/src/image/image.ts:93-120 | any other box around the opaque pixels contains the crop box |
| `Images.PaletteGrows` | packages/nouns-sdk/src/image/image.ts:46-49 | encoding only appends keys, keeps the slots of known ones, and leaves the map free of duplicates |
| `Images.MetIsKnown` | packages/nouns-sdk/src/image/image.ts:46-49 | the colour of every pixel is a key afterwards, fully transparent pixels included |
| `Images.IndexIsSlot` | packages/nouns-sdk/src/image/image.ts:46-52 | an index is 0 for alpha 0 and otherwise the slot the final map has for the pixel's colour |
| `Images.ResolvesIff` | packages/nouns-sdk/src/image/image.ts:46-52 | after encoding, the palette shows a pixel's colour in that colour's non-zero slot if and only if it did so before for a known colour, or the colour is new and not the first key of an empty map |
| `Images.Image.Collect` | packages/nouns-sdk/src/image/image.ts:39-54 | for any map, the two loops produce the specified index stream and leave the specified keys and slots |
| `Images.Image.ToRLE` | packages/nouns-sdk/src/image/image.ts:36-65 | for any map, returns the specified text and leaves the specified keys and slots |
| `Images.DecodeRleText` | packages/nouns-sdk/src/image/svg-builder.ts:7-27 | the decoder gives back bounds and runs that were printed with two characters per number |
| `Images.DecodesIff` | packages/nouns-sdk/src/image/svg-builder.ts:7-27 | bounds and runs with numbers an encoder can print are read back if and only if each number is below 256 |
| `Images.RleTextLaidOut` | packages/nouns-sdk/src/image/image.ts:56-91 | where each number of bounds and runs stands in the text |
| `Images.NaNIsNoNumber` | packages/nouns-sdk/src/image/svg-builder.ts:9-24 | the value that stands for NaN is read exactly where `parseInt` gives NaN |
| `Hex.ByteRoundTrip` | packages/nouns-sdk/src/image/utils.ts:6-8 | a byte prints as two hex digits and `parseInt` gives it back |
| `Hex.ToHexLength` | packages/nouns-sdk/src/image/utils.ts:6-8 | the unpadded text has at most k digits exactly when the number is below 16^k |
| `Hex.RgbToHexInjective` | packages/nouns-sdk/src/image/utils.ts:16-18 | with 8-bit channels a colour key has six digits and different colours have different keys |
| `Hex.RgbToHexChannels` | packages/nouns-sdk/src/image/utils.ts:16-18 | the three pairs of digits of a colour key parse to red, green and blue, in this order |
| `Hex.RgbToHexText` | packages/nouns-sdk/src/image/utils.ts:6-18 | each channel is written high half first, in digits 0 to 9 and lower-case a to f |
| `Hex.ChunksSplit` | packages/nouns-sdk/src/image/svg-builder.ts:22-23 | matching `.{1,n}` splits off a full-width front piece without line breaks |
| `Hex.ParseBound` | packages/nouns-sdk/src/image/svg-builder.ts:9-15 | a text of k characters never parses to 16^k or more, whatever it contains |
| `Hex.ShortRoundTrip` | packages/nouns-sdk/src/image/utils.ts:6-8 | every number from -15 to 255 takes two characters and is read back |
| `Svg.PaintConcat` | packages/nouns-sdk/src/image/svg-builder.ts:81-85 | painting two rectangle lists in order shows the second where it draws and the first elsewhere |
| `SvgBuilder.Draw` | packages/nouns-sdk/src/image/svg-builder.ts:49-80 | the cursor loop terminates for every run list and every bounds and emits the specified rectangles |
| `SvgBuilder.BuildSVG` | packages/nouns-sdk/src/image/svg-builder.ts:44-86 | the document is the background and the parts' rectangles in order, and there is none exactly if the loop of one part never ends |
| `SvgBuilder.DrawText` | packages/nouns-sdk/src/image/svg-builder.ts:49-80 | a part with a NaN side bound draws nothing, one with a NaN top draws its rectangles without a row, and none results exactly if a NaN length is never used up |
| `SvgBuilder.RunPaintsItsStretch` | packages/nouns-sdk/src/image/svg-builder.ts:56-79 | one run moves the cursor by its length and paints exactly its stretch of pixels, unless its colour index is 0 |
| `SvgBuilder.PartPaintsItsPixels` | packages/nouns-sdk/src/image/svg-builder.ts:53-80 | for every run list and every bounds, pixel k of the expanded runs lands at (left + k mod w, top + k div w), index 0 stays undrawn and nothing else is painted |
| `SvgBuilder.PartTiles` | packages/nouns-sdk/src/image/svg-builder.ts:33-80 | the rectangles of a part are pairwise disjoint, each on one line inside [left, right) |
| `OrderedMaps.OrderedMap.Set` | packages/nouns-sdk/src/image/png-collection-encoder.ts:11-17 | a known key keeps its place in the iteration order and takes the new value, a new key goes last |
| `Encoder.PNGCollectionEncoder.constructor` | packages/nouns-sdk/src/image/png-collection-encoder.ts:15-18 | key order and slots after setting every seed colour to its index |
| `Encoder.PNGCollectionEncoder.EncodeImage` | packages/nouns-sdk/src/image/png-collection-encoder.ts:40-51 | for any seed: returns and records the text, extends the shared colour map as specified, and appends the name to its folder |
| `Encoder.SeedWorksIff` | packages/nouns-sdk/src/image/png-collection-encoder.ts:15-18 | slot numbers and key order of a seeded encoder agree if and only if the seed is good, and then the palette is the seed with the empty key in slot 0 |
| `Encoder.PaletteStable` | packages/nouns-sdk/src/image/png-collection-encoder.ts:30-51 | over any sequence of calls and from any seed, the keys after i calls are a prefix of the final ones with the same slots, and all keys are distinct |
| `Composer.BuildSVG` | packages/nouns-webapp/src/utils/composables/nounsSDK.ts:9-53 | each part is drawn from its own palette if it has one, else from the common palette; there is no document exactly if the loop of one part never ends |
| `Composer.OwnPaletteDraws` | packages/nouns-webapp/src/utils/composables/nounsSDK.ts:18-25 | a part with its own palette is drawn as the SDK draws it over that palette, whatever the common one |
| `Composer.PartOnTop` | packages/nouns-webapp/src/utils/composables/nounsSDK.ts:14-50 | one more part adds, on top, what the SDK draws of it over its own palette, or over the common one if it has none |
| `Composer.SameAsSdk` | packages/nouns-webapp/src/utils/composables/nounsSDK.ts:18-25 | without part palettes the composer draws exactly what the SDK draws |
| `Composer.LayeredRendering` | packages/nouns-webapp/src/utils/composables/nounsSDK.ts:14-50 | each point of the view box shows the last encoded part that is opaque there, coloured from that part's own palette or else the common one, stored palettes included, and the background where none is |
| `Composer.LayeredChannels` | packages/nouns-webapp/src/utils/composables/nounsSDK.ts:14-50 | in channels: each point has the red, green and blue of the last part that is opaque there, and the background colour if there is none |
| `Composer.SdkLayeredRendering` | packages/nouns-sdk/src/image/svg-builder.ts:44-86 | the same for the SDK's builder: several parts of a collection over the collection's palette |
| `Composer.StoredPaletteRoundTrip` | packages/nouns-webapp/src/utils/composables/composablesWrapper.ts:269-272 | a palette printed as `0x000000` plus its joined colours and parsed again differs in slot 0 only |
| `Composer.StoredPaletteRendersTheSame` | packages/nouns-webapp/src/pages/Collection/index.tsx:353-354 | any part draws the same rectangles from the stored palette as from the encoder's own |
| `Composer.StoredPaletteResumes` | packages/nouns-webapp/src/pages/Collection/index.tsx:233-243 | the stored palette with slot 0 reset seeds an encoder whose colour map equals that of the first one |
| `Composer.EncodedPaletteIsStorable` | packages/nouns-webapp/src/pages/Collection/index.tsx:353-354 | with 8-bit channels every palette an encoder builds has six digits per colour after slot 0 |
| `Subgraph.Subgraph.GetOrCreateAccount` | packages/nouns-subgraph/src/utils/helpers.ts:12-33 | returns a copy of the stored account, created empty if it was missing |
| `Subgraph.Subgraph.GetOrCreateDelegate` | packages/nouns-subgraph/src/utils/helpers.ts:37-63 | returns a copy of the stored delegate; creating one other than the zero address raises the stored counter |
| `Subgraph.Subgraph.GetOrCreateDynamicQuorumParams` | packages/nouns-subgraph/src/utils/helpers.ts:124-144 | the start block is set once, by the first call that names a block |
| `Subgraph.Subgraph.HandleDelegateChanged` | packages/nouns-subgraph/src/nouns-erc-721.ts:39-61 | the new store is the specified one, with both delegates taken as copies before either is saved |
| `Subgraph.Subgraph.HandleDelegateVotesChanged` | packages/nouns-subgraph/src/nouns-erc-721.ts:79-97 | the new store is the specified one, saving the governance copy taken first |
| `Subgraph.Subgraph.HandleTransfer` | packages/nouns-subgraph/src/nouns-erc-721.ts:100-213 | the new store is the specified one, with the receiver's copy taken before the sender is saved |
| `Subgraph.Subgraph.HandleProposalCreated` | packages/nouns-subgraph/src/nouns-dao.ts:33-78 | the new store is the specified one; a repeated id overwrites the record and keeps its ETA |
| `Subgraph.Subgraph.HandleProposalCanceled` | packages/nouns-subgraph/src/nouns-dao.ts:80-85 | sets the status; a proposal that was never created aborts the handler |
| `Subgraph.Subgraph.HandleProposalVetoed` | packages/nouns-subgraph/src/nouns-dao.ts:87-92 | sets the status; a proposal that was never created aborts the handler |
| `Subgraph.Subgraph.HandleProposalQueued` | packages/nouns-subgraph/src/nouns-dao.ts:94-104 | sets status and ETA and raises the queue counter |
| `Subgraph.Subgraph.HandleProposalExecuted` | packages/nouns-subgraph/src/nouns-dao.ts:106-116 | sets the status, clears the ETA and lowers the queue counter |
| `Subgraph.Subgraph.HandleVoteCast` | packages/nouns-subgraph/src/nouns-dao.ts:118-181 | the new store is the specified one, or the old one if the handler aborts |
| `Subgraph.Subgraph.HandleMinQuorumVotesBPSSet` | packages/nouns-subgraph/src/nouns-dao.ts:183-187 | sets the minimum and, if it is the first parameter event, the start block |
| `Subgraph.Subgraph.HandleMaxQuorumVotesBPSSet` | packages/nouns-subgraph/src/nouns-dao.ts:189-193 | sets the maximum and, if it is the first parameter event, the start block |
| `Subgraph.Subgraph.HandleQuorumCoefficientSet` | packages/nouns-subgraph/src/nouns-dao.ts:195-199 | sets the coefficient and, if it is the first parameter event, the start block |
| `LedgerInvariants.DelegateChangedKeepsIff` | packages/nouns-subgraph/src/nouns-erc-721.ts:39-61 | a delegate change keeps the ownership and delegation partition if and only if the delegator holds a noun, the event names its recorded delegate, and the delegate changes |
| `LedgerInvariants.TransferKeepsPartition` | packages/nouns-subgraph/src/nouns-erc-721.ts:116-212 | a transfer by the owner to someone else, or a mint of a fresh id, keeps balances, lists, recorded owners and delegate lists in agreement |
| `LedgerCounters.DelegateChangedIff` | packages/nouns-subgraph/src/nouns-erc-721.ts:39-61 | the same equivalence for partition and counters together |
| `LedgerCounters.DelegateVotesChangedIff` | packages/nouns-subgraph/src/nouns-erc-721.ts:79-97 | partition and counters survive if and only if the previous balance is the recorded one and not both balances are zero |
| `LedgerCounters.TransferIff` | packages/nouns-subgraph/src/nouns-erc-721.ts:100-213 | partition and counters survive if and only if the sender owns the noun and is not the receiver, or the sender is zero and the id is fresh |
| `LedgerCounters.TransferKeepsCounters` | packages/nouns-subgraph/src/nouns-erc-721.ts:117-162 | holder counts, noun count, vote sum and delegate counts stay equal to what they count; the number of delegates `totalDelegates` misses grows by one exactly if the receiver held nothing and was no delegate |
| `LedgerCounters.SelfTransferListsTwice` | packages/nouns-subgraph/src/nouns-erc-721.ts:100-213 | after a mint and a transfer of the noun to its own holder, the holder's list has it twice |
| `LedgerCounters.TransferGovernance` | packages/nouns-subgraph/src/nouns-erc-721.ts:143-202 | the exact change of the governance entity by a legal transfer; `totalDelegates` never moves |
| `LedgerCounters.TransferMissesNewDelegate` | packages/nouns-subgraph/src/nouns-erc-721.ts:179-202 | a legal transfer makes a receiver that held nothing a delegate, creates no other delegate, and never moves `totalDelegates` |
| `LedgerCounters.TransferGap` | packages/nouns-subgraph/src/nouns-erc-721.ts:179-202 | the number of delegates `totalDelegates` misses grows by one if the receiver held nothing and was no delegate, and stays otherwise |
| `LedgerCounters.VotesChangedGap` | packages/nouns-subgraph/src/nouns-erc-721.ts:79-97 | it grows by one if the event creates the delegate, since the copy saved last is stale, and stays otherwise |
| `LedgerCounters.DelegateChangedGap` | packages/nouns-subgraph/src/nouns-erc-721.ts:39-61 | a delegate change, legal or not, leaves it |
| `LedgerCounters.DelegateChangedRepresented` | packages/nouns-subgraph/src/nouns-erc-721.ts:48-54 | the sum of represented holders stays, except that a change to the same delegate adds one |
| `Runs.DelegateCounterIff` | packages/nouns-subgraph/src/utils/helpers.ts:53-57 | at the end of a legal run `totalDelegates` is the number of non-zero delegates if and only if no event of the run was a transfer or votes change that created one |
| `Runs.GapCountsOpenings` | packages/nouns-subgraph/src/utils/helpers.ts:53-57 | in every state of a legal run it is short by exactly the number of such events so far |
| `Runs.RepresentedIsZero` | packages/nouns-subgraph/src/nouns-erc-721.ts:48-54 | in every state of a legal run `tokenHoldersRepresentedAmount` sums to zero over all delegates |
| `RepresentedHolders.TransferMisses` | packages/nouns-subgraph/src/nouns-erc-721.ts:143-202 | by a legal transfer the number of holders that a delegate's field misses grows by one if the receiver held nothing and is that delegate, and falls by one if the sender gives away its last noun and had that delegate |
| `RepresentedHolders.DelegateChangedMisses` | packages/nouns-subgraph/src/nouns-erc-721.ts:48-54 | a legal delegate change leaves that number for every delegate |
| `RepresentedHolders.MissedCounts` | packages/nouns-subgraph/src/nouns-erc-721.ts:39-213 | in every state of a legal run a delegate's field is short of its holders by exactly its arrivals minus its departures so far |
| `RepresentedHolders.FieldIsRightIff` | packages/nouns-subgraph/src/nouns-erc-721.ts:48-54 | one delegate's field is the number of its holders if and only if its arrivals equal its departures |
| `RepresentedHolders.AllFieldsRightIff` | packages/nouns-subgraph/src/nouns-erc-721.ts:48-54 | all fields are right if and only if no noun has been transferred or minted yet |
| `RepresentedHolders.FirstMintIsNotRepresented` | packages/nouns-subgraph/src/nouns-erc-721.ts:197-202 | after the first mint the receiver represents itself and its field is 0 |
| `LedgerCounters.FirstMintIsNotCounted` | packages/nouns-subgraph/src/utils/helpers.ts:53-57 | after the first mint one non-zero delegate exists and `totalDelegates` is 0 |
| `Quorum.CastCannotOverflow` | packages/nouns-subgraph/src/utils/dynamicQuorum.ts:11-16 | with parameters in range and at most as many votes against as tokens, neither the division nor the i32 cast aborts |
| `Quorum.QuorumBetweenBounds` | packages/nouns-subgraph/src/utils/dynamicQuorum.ts:16-18 | the result lies between the floors of supply times minimum and supply times maximum |
| `Quorum.QuorumMonotone` | packages/nouns-subgraph/src/utils/dynamicQuorum.ts:4-19 | more votes against never lower the quorum |
| `Quorum.QuorumAccuracy` | packages/nouns-subgraph/src/utils/dynamicQuorum.ts:11-18 | the result is at most the exact rational quorum and below it by less than 1 + supply*(c+1)/10000 |
| `Quorum.QuorumIsThreeFloors` | packages/nouns-subgraph/src/utils/dynamicQuorum.ts:11-18 | the result is the floor of the supply's share in capped basis points, where share of votes against and adjustment are rounded down before; the cast aborts if and only if the uncapped basis points reach 2^31 |
| `DaoInvariants.VoteCastTalliesIff` | packages/nouns-subgraph/src/nouns-dao.ts:139-160 | the three tallies stay the sums over vote entities if and only if the vote overwrites no earlier one that counts |
| `DaoInvariants.VoteCastProgress` | packages/nouns-subgraph/src/nouns-dao.ts:162-175 | a vote changes no snapshot and never lowers a recorded dynamic quorum |
| `DaoInvariants.VoteCastKeeps` | packages/nouns-subgraph/src/nouns-dao.ts:118-181 | a first vote that asks for no more votes against than there were nouns does not abort, and keeps tallies, queue counter and the recorded quorum of every voted dynamic proposal |
| `DaoInvariants.RecordMonotone` | packages/nouns-subgraph/src/nouns-dao.ts:167-175 | between two records of one proposal the dynamic quorum only rises with the votes against |
| `DaoInvariants.QueueIff` | packages/nouns-subgraph/src/nouns-dao.ts:94-104 | the queue counter stays right if and only if the queued proposal had no ETA |
| `DaoInvariants.ExecuteIff` | packages/nouns-subgraph/src/nouns-dao.ts:106-116 | the queue counter stays right if and only if the executed proposal had an ETA |
| `DaoInvariants.CreateKeeps` | packages/nouns-subgraph/src/nouns-dao.ts:33-78 | a new proposal keeps every DAO invariant and changes no other proposal |
| `DaoInvariants.ParamsKeep` | packages/nouns-subgraph/src/nouns-dao.ts:183-199 | a parameter event in block order leaves it fixed which existing proposals are dynamic, and their snapshots |
| `Runs.StepKeeps` | packages/nouns-subgraph/src/nouns-dao.ts:33-199 | every legal event, of either contract, is handled without aborting, keeps the whole invariant and lets proposals only progress |
| `Runs.RunKeeps` | packages/nouns-subgraph/src/nouns-erc-721.ts:39-213 | a run of legal events never aborts, although legality does not ask for that; it keeps the whole invariant, and between its ends snapshots and dynamic flags are fixed and recorded quorums only rise |
| `Runs.EveryStateIsGood` | packages/nouns-subgraph/src/nouns-erc-721.ts:39-213 | every state a legal run from the empty store passes through is reached without aborting and has the whole invariant |
| `Runs.RecordedQuorumIsBounded` | packages/nouns-subgraph/src/nouns-dao.ts:162-175 | in every such state a voted dynamic proposal records a quorum between the floors of its own bounds |
| `Runs.TokenRunIff` | packages/nouns-subgraph/src/nouns-erc-721.ts:39-213 | a stream of token events keeps the ledger right after every event if and only if each event is legal when it arrives |
| `Books.EventIff` | packages/nouns-subgraph/src/nouns-dao.ts:33-199 | from a store with correct ledger, tallies and queue counter, any event of either contract leaves them correct if and only if it fits: a legal token event, a first vote of that voter, a queueing without and an execution with an ETA, no second creation over counted votes; an aborted handler changes nothing |
| `Books.CreatedIff` | packages/nouns-subgraph/src/nouns-dao.ts:33-78 | a creation leaves them correct if and only if it does not overwrite a proposal with counted votes |
| `Books.StreamIff` | packages/nouns-subgraph/src/nouns-erc-721.ts:39-213 | any stream of events of both contracts keeps them correct after every event if and only if each event fits when it arrives; the empty store qualifies as a start (`EmptyInOrder`) |
| `Runs.EachNounListedOnce` | packages/nouns-subgraph/src/nouns-erc-721.ts:179-183 | a noun is in exactly one delegate's list, once, namely that of its owner's recorded delegate |
| `Runs.VoteRecordsItsNouns` | packages/nouns-subgraph/src/nouns-dao.ts:145-146 | a vote entity records exactly the nouns whose owners had the voter as delegate |
| `Runs.SnapshotSurvives` | packages/nouns-subgraph/src/nouns-dao.ts:67-77 | at the end of any legal run a proposal still carries the number of unburned nouns and the quorum parameters of the moment it was created |
| `ProposalHistory.ProposalsAreTheirEvents` | packages/nouns-subgraph/src/nouns-dao.ts:33-199 | after any run no handler aborted, legal or not: parameters are those set last, the start block is that of the first parameter event, the queue counter is queueings minus executions, `totalTokenHolders` is mints minus burns; a proposal has proposer, blocks and threshold of its last creating event, supply and parameters of that moment, tallies summed over the votes since, the status said by the last event that rules on it, the ETA of the last queueing unless executed, and the quorum formula's value once a dynamic vote arrived, else the creating event's quorum |
| `ProposalHistory.VotesAreTheirEvents` | packages/nouns-subgraph/src/nouns-dao.ts:118-153 | a vote entity exists if and only if its voter voted on the proposal, and has support, votes and block of the last such vote |
| `ProposalHistory.RecordedQuorumIff` | packages/nouns-subgraph/src/nouns-dao.ts:162-175 | at the end of a legal run the start block is that of the first parameter event; a voted proposal created in a later block records the formula's value of its votes against, supply and parameters, and every other one the quorum of its creating event |
| `LedgerHistory.LedgerIsItsEvents` | packages/nouns-subgraph/src/nouns-erc-721.ts:39-213 | at the end of a legal run an account's balance is the nouns received minus those given, `totalTokensHeld` counts those received, its delegate is the one named last (itself on its first noun, none after its last), a noun's owner is its last receiver, and a delegate's votes are those reported last |
| `LedgerHistory.DelegateListsAreTheirEvents` | packages/nouns-subgraph/src/nouns-erc-721.ts:51-60 | a delegate lists a noun once if the noun's last receiver has it as delegate by those events, and otherwise not |
| `AuctionSlice.AuctionStore.AppendBid` | packages/nouns-webapp/src/state/slices/auction.ts:78-86 | the reducer ignores other auctions and known hashes, else prepends the bid and takes amount and bidder from the greatest bid |
| `AuctionSlice.AuctionStore.SetActiveAuction` | packages/nouns-webapp/src/state/slices/auction.ts:69-73 | starts an auction without bids |
| `AuctionSlice.AuctionStore.SetFullAuction` | packages/nouns-webapp/src/state/slices/auction.ts:74-77 | replaces the auction and keeps the bids |
| `AuctionSlice.AuctionStore.SetAuctionExtended` | packages/nouns-webapp/src/state/slices/auction.ts:94-98 | moves the end of the active auction only if the event is about it |
| `AuctionSlice.AuctionStore.SetAuctionSettled` | packages/nouns-webapp/src/state/slices/auction.ts:87-93 | changes the active auction only if the event is about it |
| `AuctionSlice.MaxBidIsTop` | packages/nouns-webapp/src/state/slices/auction.ts:48-52 | the reduction returns a bid of the list that no other exceeds |
| `AuctionHistory.MaxBidIsLastTop` | packages/nouns-webapp/src/state/slices/auction.ts:48-52 | of equal greatest bids the reduction returns the last of the list, which is the one that came first |
| `AuctionHistory.TermsAreTheirEvents` | packages/nouns-webapp/src/state/slices/auction.ts:69-98 | after any stream of events noun and start are those of the last auction opened, the end is that of its last extension if any, and it is settled if and only if it was opened so or a settlement of it followed |
| `AuctionHistory.PriceIsItsEvent` | packages/nouns-webapp/src/state/slices/auction.ts:69-93 | amount and bidder are those set by the last event that sets them: an opening, a settlement of the active noun, or an accepted bid, which leaves value and sender of the top bid |
| `AuctionHistory.BidsMove` | packages/nouns-webapp/src/state/slices/auction.ts:69-98 | a new auction empties the bids, a bid on the active noun with a new hash goes in front, and no other event changes them |
| `AuctionSlice.BidsConvergeIff` | packages/nouns-webapp/src/state/slices/auction.ts:59-60 | every stream with the same bids, in any order and with any duplication, ends with the same bids if and only if transaction hashes identify them |
| `AuctionSlice.BidsAreOffers` | packages/nouns-webapp/src/state/slices/auction.ts:78-81 | where hashes identify bids, the final list holds each offered bid exactly once |
| `AuctionSlice.AmountConvergesIff` | packages/nouns-webapp/src/state/slices/auction.ts:78-84 | the amount is the same for every such stream if and only if all bids that can win have one value |
| `AuctionSlice.AmountIsGreatest` | packages/nouns-webapp/src/state/slices/auction.ts:82-83 | where hashes identify bids, the amount is the greatest value offered, in any order of arrival |
| `AuctionSlice.BidderConvergesIff` | packages/nouns-webapp/src/state/slices/auction.ts:78-84 | the bidder is the same for every such stream if and only if all bids that can win come from one sender |
| `AuctionSlice.CanWinIsTop` | packages/nouns-webapp/src/state/slices/auction.ts:48-60 | where hashes identify bids, the bids that can win are those no other exceeds |
| `AuctionSlice.FavouredWins` | packages/nouns-webapp/src/state/slices/auction.ts:48-60 | a bid that can win does win if it and then the weaker bids arrive first |
| `AuctionSlice.WinnerCanWin` | packages/nouns-webapp/src/state/slices/auction.ts:48-60 | whatever the order, the greatest bid of the list is one that can win |
| `Netting.NetBalances` | packages/nouns-webapp/src/utils/composables/composablesWrapper.ts:292-326 | exactly one entry, with received minus sent, for each token with a positive difference, and no other entry |
| `Netting.PositiveNets` | packages/nouns-webapp/src/utils/composables/composablesWrapper.ts:385-421 | dropping the entries that are not positive from the running balances leaves exactly those entries |
| `Netting.NettingIgnoresOrder` | packages/nouns-webapp/src/utils/composables/composablesWrapper.ts:299-325 | any reordering of the two event lists gives the same entries |
| `MarketIndex.Index.IndexComposablesMarketListings` | packages/nouns-webapp/src/utils/composables/composablesIndexer.ts:415-450 | one run adds exactly the events whose listing id was not in the table before the loop |
| `MarketIndex.Index.IndexComposablesMarketListingsFilled` | packages/nouns-webapp/src/utils/composables/composablesIndexer.ts:452-471 | one run adds exactly the events whose block and transaction index were not in the table before the loop |
| `MarketIndex.CreatedRows` | packages/nouns-webapp/src/utils/composables/composablesIndexer.ts:415-432 | one run keeps the rows and adds each created event as often as the log has it, unless a row has its listing id |
| `MarketIndex.DeletedRows` | packages/nouns-webapp/src/utils/composables/composablesIndexer.ts:434-450 | the same for deleted events |
| `MarketIndex.FilledRows` | packages/nouns-webapp/src/utils/composables/composablesIndexer.ts:452-471 | the same for fills, unless a row has both its block number and its transaction index |
| `MarketIndex.AbsorbIff` | packages/nouns-webapp/src/utils/composables/composablesIndexer.ts:460-468 | a run brings the table up to an extended log if and only if no added event has a key the table holds |
| `MarketIndex.IndexEqualsReplayIff` | packages/nouns-webapp/src/utils/composables/composablesIndexer.ts:415-471 | over an append-only log the table equals the log after every run if and only if the log always grows by events with unseen keys |
| `MarketIndex.ListingsAreOpen` | packages/nouns-webapp/src/utils/composables/composablesWrapper.ts:331-334 | a created listing is returned if and only if no deleted event names its id |
| `MarketIndex.ListingsCount` | packages/nouns-webapp/src/utils/composables/composablesWrapper.ts:331-334 | an open listing is returned as often as it was created, a deleted one never |
| `MarketIndex.ListingsThroughIndexIff` | packages/nouns-webapp/src/utils/composables/composablesWrapper.ts:329-350 | after any number of runs over append-only logs, with any deletions, the listings read through the index are those read from the contract if and only if no listing still open was created under an id that an earlier run had seen |
| `MarketIndex.UniqueListingsThroughIndex` | packages/nouns-webapp/src/utils/composables/composablesWrapper.ts:329-350 | unique ids of created listings are enough |
| `MarketIndex.TableHasLogKeys` | packages/nouns-webapp/src/utils/composables/composablesIndexer.ts:415-471 | however keys repeat, after every run a table has exactly the keys of the log |
| `LogKeys.KeyRoundTripIff` | packages/nouns-webapp/src/utils/logParsing.ts:17-42 | parsing a key and printing the filter gives back the key if and only if it has one colon and no empty topic piece |
| `LogKeys.KeyIsLaidOut` | packages/nouns-webapp/src/utils/logParsing.ts:17-23 | a separator-free filter's key is the address, a colon, and the topics between dashes, alternatives between semicolons, and NUL for none or an empty one |
| `LogKeys.FilterKeyStableIff` | packages/nouns-webapp/src/utils/logParsing.ts:17-42 | for every filter the key is such a key if and only if the address has no colon, there are topics, and no topic text has a colon or an empty piece between dashes |
| `LogKeys.SeparatorFreeStableIff` | packages/nouns-webapp/src/utils/logParsing.ts:17-42 | for filters free of separators that is: the topics are present and none is empty |
| `LogKeys.FilterRoundTripIff` | packages/nouns-webapp/src/utils/logParsing.ts:17-42 | a filter comes back from its key if and only if it is free of separators, has no start block and no empty address, and has topics of which each is a plain text or a list of at least two |
| `LogKeys.WildcardIsLost` | packages/nouns-webapp/src/utils/logParsing.ts:20-34 | a filter with a wildcard topic comes back asking for the topic NUL |
| `LogFetch.LogsSlice.DoAddListener` | packages/nouns-webapp/src/state/slices/logs.ts:26-33 | opens an entry with one listener or counts one more, and keeps its results |
| `LogFetch.LogsSlice.DoRemoveListener` | packages/nouns-webapp/src/state/slices/logs.ts:76-80 | counts one listener less on a known entry and keeps its results |
| `LogFetch.LogsSlice.DoFetchedLogs` | packages/nouns-webapp/src/state/slices/logs.ts:46-60 | stores a reply unless the entry is missing or holds a newer block |
| `LogFetch.LogsSlice.DoFetchedLogsError` | packages/nouns-webapp/src/state/slices/logs.ts:61-75 | the same for a failed query |
| `LogFetch.LogsSlice.DoFetchingLogs` | packages/nouns-webapp/src/state/slices/logs.ts:34-45 | marks every known filter with the block, and no other entry |
| `LogFetch.ResultsAreNewest` | packages/nouns-webapp/src/state/slices/logs.ts:46-75 | under any interleaving of actions an entry holds the winning reply among those sent to it |
| `LogFetch.NewestIsGreatest` | packages/nouns-webapp/src/state/slices/logs.ts:54-59 | the winning reply is one that was sent, none is newer, and the block never falls |
| `LogFetch.ReplyLandsIff` | packages/nouns-webapp/src/state/updaters/logs.ts:34-67 | a reply to a query asked with the filter parsed from a key changes that entry to hold the reply if the key round-trips and the stored result is not newer, and not at all otherwise; a reply that is news and not older is held afterwards if and only if the key round-trips |
| `LogFetch.MarkingStopsIff` | packages/nouns-webapp/src/state/slices/logs.ts:34-45 | an entry that needs fetching stops to need it if and only if one of the marked filters has its key |
| `LogFetch.SelectedAgainIff` | packages/nouns-webapp/src/state/updaters/logs.ts:17-40 | after the updater marked the filters parsed from the selected keys, an entry is selected again at the same block if and only if no selected key prints back as its own |
| `LogFetch.AskedOncePerBlock` | packages/nouns-webapp/src/state/updaters/logs.ts:17-40 | in particular a selected entry with a stable key is not selected again at the same block |
| `LogFetch.EntriesAreTheirActions` | packages/nouns-webapp/src/state/slices/logs.ts:26-80 | after any actions an entry exists if and only if a listener was added; its listeners are those added minus those removed since, its fetching block is that of the last marking since, and its result the winning reply since |
| `LogFetch.SelectedIff` | packages/nouns-webapp/src/state/updaters/logs.ts:17-40 | the updater selects an entry at a block if and only if it exists, its listeners added and removed do not cancel out, the last marking of it named an earlier block, and no reply to it was of this block or a later one |
| `LogFetch.BlockRanges` | packages/nouns-webapp/src/state/updaters/logs.ts:42-51 | the ranges cover every block from start to head, none exceeds the limit, and neighbours share exactly the boundary block |
| `Seeds.PartIsFieldIff` | packages/nouns-assets/src/utils.ts:44-68 | a part is the 48-bit field at its shift modulo the number of parts if the shifted value is at least 2^40 and there are parts, and an exception otherwise |
| `Seeds.SeedReadsDisjointFields` | packages/nouns-assets/src/utils.ts:75-84 | the five parts read the five lowest 48-bit fields, one each; a seed results if and only if each field can be cut (at least 2^40 above its shift) and no part list is empty |
| `Seeds.HashReadsDisjointFields` | packages/nouns-assets/src/utils.ts:75-84 | the same for every hash, through its own fields, of which it is composed |

## Left out

- User interface, RPC, SQL, Redis, GraphQL and file access, PNG and JSON parsing, zlib, ABI coding: event lists, pixel functions and tables are given.
- The text of the SVG: rectangles are data, and the view box is 320 by 320.
- SvgBuilder.BuildSVG: what a viewer shows for a rectangle whose row is NaN; here it covers no point. A drawing loop that never ends is the result None.
- Composer.BuildSVG: the cursor loop is the SDK's and is modelled once, in SvgBuilder.Draw; None as there.
- Encoder.PNGCollectionEncoder.EncodeImage: `format`, `images` and `writeToFile`, which lay the recorded texts out in folders, are not modelled.
- Images.DecodesIff: asks for numbers above -16; an encoder prints none below -1.
- Seeds: `keccak256` of block hash and noun id is an input; the random seed helper and `getNounData` are left out.
- `tokenBalance`, `totalTokensHeld` and `delegatedVotes` stand for both the raw field and its equal second copy.
- `TransferEvent`, `DelegationEvent`, `Seed` entities and `handleNounCreated`: written, never read by the handlers.
- Proposal texts, call data, timestamps and hashes, and the reason of a vote.
- Vote entities are keyed by the pair of voter and proposal instead of the two ids joined by a dash.
- Subgraph.Subgraph.HandleTransfer: the source's branches at lines 148-154 and 194-196 are proved dead and hold no code.
- Subgraph.Subgraph.HandleProposalCanceled: a handler that touches a proposal that was never created aborts, because the new entity lacks required fields; the aborted handler leaves the store unchanged. The same holds for the other status handlers and for votes.
- The governance and quorum-parameter entities exist from the start, with the zeros their helpers create them with.
- The legality premises of token events are not derived from the Solidity contracts. In particular a contract keeps the delegate of an account without nouns while the subgraph resets it, so a delegate change by such an account is not legal here. Proposals are created while nouns exist and with parameters in the contract's ranges, and votes against stay within the snapshot supply.
- The auction-house subgraph, `getProposalState`, and chain reorganisations.
- AuctionSlice.BidsConvergeIff: starts from an auction without bids and lets bids and extensions arrive; settlement and `setFullAuction` overwrite amount and bidder, as their reducers say.
- Netting.NetBalances: generic in the key, since the two functions differ only in comparing a token id or a token address with its id; the console message for an unmatched outgoing event is dropped.
- MarketIndex.Index.IndexComposablesMarketListings: listing ids are exact numbers; the source's `parseInt` rounds above 2^53. Tables are read back in the order of insertion.
- `indexComposableItemCollections` and the other indexers.
- LogFetch.ResultsAreNewest: a log is a text; the contents of logs play no part.
