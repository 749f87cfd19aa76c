# Hotel data integration: a Dafny model

This project models the core of a hotel data integration pipeline. Several
suppliers (acme, patagonia, paperflies) each send records of the same hotels
in different shapes. The pipeline works in three stages:

- **Normalise.** The text fields of every record are cleaned in place.
  When a raw store keyed by (hotel id, source) is configured, each record is
  then upserted into it.
- **Group.** The records are grouped by hotel id.
- **Merge.** Each group becomes one record. Every attribute has its own
  rule. Name and description prefer the supplier with the higher bias score,
  then the longer text. The location takes, per field, the first value and
  then any strictly longer string. Amenities and booking conditions become
  ordered unions. Images get one entry per link, keeping the longer
  description.

The stores (`HotelDB`, one record per id, and `RawHotelDB`, one per
(id, source)) count their records and answer lookups.

The model follows the program's structure, one module per file:

| module | file | models |
|---|---|---|
| `Wrappers` | wrappers.dfy | `Option` and `Result` |
| `Sequences` | sequences.dfy | the "append if not present" union, dedup, flatten, `dict.values()` |
| `Models` | models.dfy | the pydantic records and the empty-string validator |
| `Cleaner` | cleaner.dfy | `HotelCleaner` |
| `Bias` | bias.dfy | `HotelBias` and the shipped bias table |
| `Normalizer` | normalizer.dfy | the attribute normalisers and `DataNormalizer` |
| `Merger` | merger.dfy | the attribute mergers |
| `DataMerger` | data_merger.dfy | `DataMerger.merge` |
| `Database` | database.dfy | `HotelDB` and `RawHotelDB` |
| `Service` | hotel_service.dfy | `HotelService` |

Code that only computes a value is modelled as functions and lemmas. Code
that works by looping or by changing state is modelled as methods:

- the merger loops, `DataNormalizer.normalize` over an array, and the
  service loops are methods whose `ensures` tie them to a specification
  function;
- the two stores and the service are classes whose methods update their
  fields.

The properties are proved as lemmas about the specification functions.

Python semantics are written out explicitly:

- **Truthiness.** `None`, `""` and `[]` are falsy, while a pydantic model is
  always truthy.
- **Ties in `max(a, b, key=len)`.** It keeps its first argument on a tie.
- **`len(None)`.** It raises `TypeError`, modelled as the error
  `Failure.LenOfNone`.
- **Dictionaries.** A dictionary is a map together with its keys in
  insertion order.

## Model

| member | source | states |
|---|---|---|
| Models.EmptyStringToNone | models/hotel.py:19-21 | a text field becomes `None` exactly when it is `None` or `""`, and is otherwise kept |
| Models.BlankToNone | models/hotel.py:17-21 | a coordinate becomes `None` exactly when it is `None` or `""`, and a number is kept |
| Models.NewLocation | models/hotel.py:12-21 | every field of a new `Location` passes through the validator, so no text field holds `""` |
| Models.Revalidate | models/hotel.py:12-21 | re-validating a location leaves no `""` field, keeps the coordinates, and is the identity on a well-formed location |
| Cleaner.ReplaceDisallowed | utils/cleaner.py:55-56 | the first substitution keeps the length, leaves only allowed characters, keeps every allowed character in place and turns every other character into a space |
| Cleaner.ReplaceDisallowedKeeps | utils/cleaner.py:55-56 | text made only of allowed characters passes the first substitution unchanged |
| Cleaner.SubSpaceBeforePunctDrops | utils/cleaner.py:59 | the second substitution removes exactly one whitespace character before each punctuation mark and nothing else |
| Cleaner.SubSpaceBeforePunctChars | utils/cleaner.py:59 | the second substitution emits only characters of its input |
| Cleaner.SubSpaceBeforePunctNoPunct | utils/cleaner.py:59 | text without punctuation passes the second substitution unchanged |
| Cleaner.SplitConcat | utils/cleaner.py:62 | `split()` takes a leading run of whitespace and a word off as one word |
| Cleaner.SplitAllSpace | utils/cleaner.py:62 | `split()` of whitespace only is empty |
| Cleaner.SplitWords | utils/cleaner.py:62 | on allowed characters, every word of `split()` is non-empty and made of word characters |
| Cleaner.JoinTidy | utils/cleaner.py:62 | joining such words with single spaces gives text with single inner spaces and no space at either end |
| Cleaner.StripTidy | utils/cleaner.py:65 | `strip()` leaves such text unchanged |
| Cleaner.JoinSplitTidy | utils/cleaner.py:62 | splitting tidy text and joining it again gives the text back |
| Cleaner.CleanText | utils/cleaner.py:39-67 | `clean_text` of a non-string is `""`; its output holds only ASCII letters, digits, the six kept punctuation marks and single spaces, with no space at either end |
| Cleaner.CleanTextFixed | utils/cleaner.py:39-67 | `clean_text` leaves tidy text without punctuation unchanged |
| Cleaner.ReplaceDisallowedExample | utils/cleaner.py:55-56 | the first substitution leaves `"  Pool ,  WiFi "` unchanged |
| Cleaner.SubSpaceBeforePunctExample | utils/cleaner.py:59 | the second substitution turns `"  Pool ,  WiFi "` into `"  Pool,  WiFi "` |
| Cleaner.SplitExample | utils/cleaner.py:62 | `split()` of `"  Pool,  WiFi "` is `["Pool,", "WiFi"]` |
| Cleaner.JoinStripExample | utils/cleaner.py:62-65 | joining those words and stripping gives `"Pool, WiFi"` |
| Cleaner.CleanTextExample | utils/cleaner.py:39-67 | `clean_text("  Pool ,  WiFi ")` is `"Pool, WiFi"` |
| Cleaner.CleanTextTwoSpacesBeforeComma | utils/cleaner.py:59-65 | with two spaces before a comma only one is removed: `"a  ,"` cleans to `"a ,"` |
| Cleaner.CleanTextOneSpaceBeforeComma | utils/cleaner.py:59-65 | `"a ,"` cleans to `"a,"` |
| Cleaner.CleanTextNotIdempotent | utils/cleaner.py:39-67 | cleaning `"a  ,"` twice differs from cleaning it once |
| Cleaner.LowerChar | utils/cleaner.py:86 | lowercasing one character leaves no capital and shifts exactly the capitals |
| Cleaner.Lower | utils/cleaner.py:86 | `lower()` keeps the length and lowercases character by character |
| Cleaner.CleanCaption | utils/cleaner.py:69-88 | a caption is the cleaned text lowercased: the same length, no capital, each capital replaced by its lowercase letter, every other character in place, `""` for a non-string, and the shape of cleaned text |
| Cleaner.SpaceUppersAdds | utils/cleaner.py:107 | inserting a space before each capital adds one character per capital and removes nothing |
| Cleaner.SpaceBeforeUpperAdds | utils/cleaner.py:107 | the lookbehind `(?<!^)` skips a capital at the very start: one space per later capital, nothing removed |
| Cleaner.CleanAmenity | utils/cleaner.py:90-112 | an amenity has no capital, is one character longer per capital after the first position, is `""` when the cleaned text is, and is the lowercased cleaned text once spaces are ignored |
| Cleaner.CleanAmenityAtCapital | utils/cleaner.py:104-110 | a capital after the first character starts a new word; after an existing space the amenity holds two spaces there |
| Cleaner.LettersFixed | utils/cleaner.py:39-67 | `clean_text` leaves words of letters separated by single spaces unchanged |
| Cleaner.CleanAmenityCamel | utils/cleaner.py:90-112 | for such words with one capital after the first character, the amenity is the text lowercased with a space inserted before that capital |
| Cleaner.CleanAmenityBusinessCenter | utils/cleaner.py:90-112 | `clean_amenity("BusinessCenter")` is `"business center"` |
| Cleaner.CleanAmenityPoolBar | utils/cleaner.py:104-110 | `clean_amenity("Pool Bar")` is `"pool  bar"`, with two spaces before `bar` |
| Bias.FactorNames | utils/bias.py:47-53 | the factor names are the table's keys, in order |
| Bias.FindFactorSpec | utils/bias.py:69-75 | looking a factor up finds it exactly when some entry has that name, and returns that entry's scores |
| Bias.ScoresMembers | utils/bias.py:77-79 | the valid scores are exactly the scores that some factor gives the id; there are none exactly when no factor defines the id |
| Bias.MeanBounds | utils/bias.py:81-87 | the mean lies within any bounds on the id's scores |
| Bias.MeanScoreSpec | utils/bias.py:77-87 | the score without a field is `None` exactly when no factor defines the id, and otherwise lies between the id's smallest and largest score |
| Bias.MeanConstant | utils/bias.py:77-87 | when every defining factor gives the same score, that score is the mean |
| Bias.GetBiasScoreField | utils/bias.py:57-75 | with a field: an unknown field gives `None`, a known one the field's score, and an id missing from a known field a `KeyError` |
| Bias.GetBiasScore | utils/bias.py:57-87 | without a field the lookup never raises, and is `None` exactly when no factor defines the id; it raises only for a known field that lacks the id, with a `KeyError` for that id |
| Bias.CompareBiasCases | utils/bias.py:89-109 | the four cases of `compare_bias`: 0, -1, 1 and the difference of the means |
| Bias.CompareBiasReflexive | utils/bias.py:89-109 | a source ties with itself |
| Bias.CompareBiasAntisymmetric | utils/bias.py:89-109 | swapping the two sources negates the comparison |
| Bias.CompareBias | utils/bias.py:89-109 | the comparison is positive exactly when the first source is scored and the second is unscored or scored lower, negative in the mirrored case, and zero exactly when the two mean scores agree (both `None` included) |
| Bias.ShippedMean | configs/config.py:16-24 | under the shipped table each of the three suppliers scores 0.9 |
| Bias.ShippedSuppliersTie | configs/config.py:16-24 | under the shipped table any two of the suppliers tie |
| Normalizer.CleanAmenities | services/normalizer.py:100-106 | the amenity list comprehension maps `clean_amenity` over the list, keeping its length and order |
| Normalizer.CleanTexts | services/normalizer.py:144 | the condition list comprehension maps `clean_text` over the list |
| Normalizer.NormalizeName | services/normalizer.py:47-57 | a falsy name is returned as it is, any other is cleaned, and the result has the shape of cleaned text |
| Normalizer.NormalizeDescription | services/normalizer.py:60-67 | a normalised description is always present, is `""` for a missing one and the cleaned text of a present one, and has the shape of cleaned text |
| Normalizer.CleanIfTruthy | services/normalizer.py:78-85 | a location text field is cleaned when truthy, with the shape of cleaned text, and otherwise kept |
| Normalizer.NormalizeLocation | services/normalizer.py:70-90 | each of the four text fields is cleaned exactly when truthy and otherwise kept; latitude and longitude are untouched |
| Normalizer.CleanAmenityList | services/normalizer.py:100-106 | a falsy amenity list passes through; a non-empty one is cleaned element by element, keeping its length; the result holds no capital |
| Normalizer.NormalizeAmenities | services/normalizer.py:93-111 | `None` stays `None` and only `None` becomes `None`; otherwise both lists are normalised and hold no capital |
| Normalizer.WalkImages | services/normalizer.py:121-124 | the loop over one image list changes no image, because an `Image` has no `caption` attribute |
| Normalizer.WalkIfNonEmpty | services/normalizer.py:120-129 | a falsy image list is not walked; either way the list is unchanged |
| Normalizer.NormalizeImages | services/normalizer.py:114-135 | the images normaliser returns its input unchanged |
| Normalizer.NormalizeBookingConditions | services/normalizer.py:138-147 | a falsy list passes through; a non-empty one is cleaned element by element, keeping length and order, each condition with the shape of cleaned text |
| Normalizer.NormalizeHotelFields | services/normalizer.py:30-41 | with each attribute configured once, each configured field is normalised once and every other field, the id, destination and source are unchanged |
| Normalizer.NormalizeHotel | services/normalizer.py:33-40 | normalising a record never changes its id, destination or source |
| Normalizer.Normalize | services/normalizer.py:30-41 | every record of the array is replaced by its normalised form, in place |
| Normalizer.NormalizeRecord | services/normalizer.py:33-40 | the per-record loop applies the configured normalisers in turn and yields the record that `NormalizeHotelFields` describes |
| Merger.Encode | services/merger.py:21-26 | an encoded pair decodes to its value and carries its source |
| Merger.EncodeDecode | services/merger.py:21-34 | re-encoding a decoded pair gives the pair back |
| Merger.MergeScalar | services/merger.py:104-155 | the name and description loop computes the bias-then-length fold |
| Merger.ScalarIteration | services/merger.py:113-123 | one pass of the name and description loop takes the step whose cases `ScalarStepCases` spells out |
| Merger.ScalarStepCases | services/merger.py:113-123 | one step: a choice with a falsy value is always replaced; against a truthy one, a better-scored candidate replaces the choice; on a tie a missing value raises, a strictly longer one replaces it and any other keeps it; a worse-scored candidate is ignored |
| Merger.ScalarFoldFails | services/merger.py:113-128 | once a step has raised, the merge raises |
| Merger.ScalarMerge | services/merger.py:104-128 | `None` for an empty batch; a non-empty merge that succeeds returns the value of some pair of the batch |
| Merger.ScalarMergePresent | services/merger.py:104-128 | when every value is present the merge cannot raise and returns a value |
| Merger.ScalarFoldBest | services/merger.py:113-123 | with truthy values the fold picks a pair whose source has the best score and, among those, the first longest value |
| Merger.ScalarMergeShipped | services/merger.py:104-128 | under the shipped table, with truthy values, the first of the longest values wins |
| Merger.CompareScoresOrder | utils/bias.py:89-109 | the comparison is negative, zero or positive exactly as the scores are ordered |
| Merger.MergeLocation | services/merger.py:158-186 | the location loop computes the per-field fold, then re-validates |
| Merger.LocationFoldFields | services/merger.py:169-181 | the fold treats each of the six fields independently |
| Merger.TextFoldFirstLongest | services/merger.py:176-181 | a text field is `None` exactly when no location has it, and is otherwise the first of the longest values |
| Merger.CoordFoldFirst | services/merger.py:176-179 | a coordinate is the first present value, because a float is never a `str` |
| Merger.LocationMerge | services/merger.py:158-186 | the result is `None` exactly on an empty batch, and otherwise a location with no `""` text field |
| Merger.LocationMergeSpec | services/merger.py:158-186 | for a non-empty batch every text field is the first longest value with `""` turned into `None`, and every coordinate is the first present one |
| Merger.AppendAbsent | services/merger.py:206-208 | the "append if not present" loop computes the ordered union |
| Merger.DedupFlattenSpec | services/merger.py:199-208 | the union is duplicate-free, holds exactly the elements of the lists, and keeps each where it first occurs |
| Merger.MergeAmenities | services/merger.py:189-213 | the amenities loop computes both ordered unions |
| Merger.AmenitiesIteration | services/merger.py:199-208 | a record without amenities leaves both unions as they are; otherwise each of its lists joins its own union |
| Merger.UnionOfLists | services/merger.py:199-208 | a union over a batch is duplicate-free and holds exactly the elements of the present records' lists |
| Merger.AmenitiesMerge | services/merger.py:189-213 | the result is `None` exactly on an empty batch, and otherwise both lists are present and duplicate-free |
| Merger.AmenitiesMergeSpec | services/merger.py:189-213 | for a non-empty batch each list holds exactly the amenities of the truthy lists, in order of first appearance |
| Merger.DropEmpty | services/merger.py:272 | `filter(None, ...)` keeps exactly the non-empty conditions |
| Merger.MergeBookingConditions | services/merger.py:258-280 | the booking conditions loop computes the ordered union |
| Merger.BookingConditionsMerge | services/merger.py:258-280 | the result is `None` exactly on an empty batch, and otherwise duplicate-free |
| Merger.BookingConditionsMergeSpec | services/merger.py:258-280 | for a non-empty batch the result has no `""` and holds exactly the truthy conditions of the batch, in order of first appearance |
| Merger.AddImages | services/merger.py:236-247 | the per-image loop computes the link-table fold |
| Merger.MergeImageField | services/merger.py:232-247 | a falsy image list is skipped |
| Merger.MergeImages | services/merger.py:216-255 | the images loop computes the three per-field folds and raises when any of them raises |
| Merger.ImageFoldSpec | services/merger.py:236-247 | the per-field dictionary raises exactly on a conflict (the first image of a link has no description and a later one has a truthy one); otherwise it holds the links first-seen first, each entry taken from its own link with the longest truthy description, the earliest of them on a tie |
| Merger.ImageFoldFails | services/merger.py:241-245 | once the per-field loop has raised, more images cannot undo it |
| Merger.ImageFieldSpec | services/merger.py:236-250 | one field raises exactly on a conflict, and otherwise yields one image per distinct link, first seen first, whose description is the earliest of the longest truthy ones of that link, and missing exactly when the first image had none |
| Merger.ImagesMerge | services/merger.py:216-255 | `None` on an empty batch; a failure is always the len-of-`None` error; a non-empty success has all three fields present |
| Merger.ImagesMergeSpec | services/merger.py:216-255 | for a non-empty batch the merge raises exactly when one of the three fields has a conflict, and otherwise returns the three merged fields |
| Merger.ImagesConflictExample | services/merger.py:241-245 | a room image sent first without and then with a description makes the merge raise |
| Merger.ConflictingPair | services/merger.py:236-247 | the two-image list of that example raises in the per-field loop |
| Merger.MergedImagesUnique | services/merger.py:236-250 | the merged images of a field are determined by its images: at most one list meets that description |
| Merger.TieKeepsFirst | services/merger.py:241-247 | of two equally long descriptions of one link the first stays, and keeping the second is not the merge |
| DataMerger.FieldBatch | services/merger.py:76-79 | the batch of a field holds one pair per record, in order, tagged with the record's source |
| DataMerger.CollectBatch | services/merger.py:76-79 | the batch-building loop computes that batch |
| DataMerger.MergeField | services/merger.py:81-88 | one configured merger, with its failure reported as that field's failure |
| DataMerger.Finalize | services/merger.py:90-95 | rebuilding the merged record raises exactly when the name or the location is missing; otherwise it keeps the id and destination, marks the source `"merged"` and re-validates the location |
| DataMerger.Merge | services/merger.py:66-98 | `DataMerger.merge` computes its specification function |
| DataMerger.MergeSpec | services/merger.py:66-98 | `None` for an empty group; a successful merge of a non-empty group is a record with source `"merged"` and a re-validated location |
| DataMerger.MergersFail | services/merger.py:81-88 | the first failing merger ends the loop |
| DataMerger.ApplyMergersFailure | services/merger.py:75-88 | the loop raises exactly when some configured merger raises, and then names the first such field |
| DataMerger.ApplyMergersFields | services/merger.py:72-88 | each configured field holds its merger's result over the batch, every other field its starting value, and id, destination and source are unchanged |
| DataMerger.EmptyBatches | services/merger.py:69-70 | every attribute merger, and `DataMerger.merge`, returns `None` on an empty batch |
| DataMerger.NameNeverFails | services/merger.py:104-128 | every record has a name, so the name merger never raises and always returns a name |
| DataMerger.OnlyImagesFail | services/merger.py:104-155 | when every record has a description, only the images merger can raise |
| DataMerger.MergeSpecResult | services/merger.py:66-98 | for a non-empty group: the merge raises exactly when some merger raises (the first one is named, and the final validation never fails); otherwise it gives the last record with each configured field merged, source `"merged"` and a re-validated location |
| Database.IdsOf | services/hotel.py:79-80 | the ids of a list of records, in order |
| Database.Upserts | services/database.py:59-75 | after a run of `update_one` an id is stored exactly when it was stored before or some record carries it, and an id no record carries keeps its old record |
| Database.UpsertsLastWins | services/database.py:59-75 | an id holds the last record that carried it |
| Database.HotelDB.constructor | services/database.py:55-57 | an empty store with count 0 |
| Database.HotelDB.Length | services/database.py:43-47 | `length()` is the number of stored ids |
| Database.HotelDB.Values | services/database.py:82 | `values()` lists the stored records in insertion order, each under its own id |
| Database.HotelDB.UpdateOne | services/database.py:59-67 | the record is stored under its id; a new id is counted and appended; the store stays valid |
| Database.HotelDB.UpdateMany | services/database.py:69-75 | `update_one` on each record in order |
| Database.HotelDB.FindByIdAndDestination | services/database.py:118-132 | found exactly when the id is stored with that destination |
| Database.HotelDB.Find | services/database.py:102-116 | a truthy destination restricts the lookup; otherwise it is a plain lookup |
| Database.HotelDB.FindAll | services/database.py:77-99 | without both filters, every stored record; otherwise exactly the stored records whose id and destination are both listed, each once |
| Database.Puts | services/database.py:145-170 | a run of upserts removes no stored (id, source) pair, and stores the pair of every record |
| Database.PutsMember | services/database.py:145-156 | after a run of upserts a pair is stored exactly when it was stored before or some record carried it |
| Database.PutsLast | services/database.py:145-156 | the last upsert of a pair wins |
| Database.PutsLastAt | services/database.py:145-170 | the record of the last upsert of a pair is the one stored under it |
| Database.PutKeeps | services/database.py:150-153 | an upsert of another pair leaves a stored pair as it was |
| Database.PutsUntouched | services/database.py:145-170 | after a run of upserts, a stored pair that no record carries keeps its old record |
| Database.SourcesAfterSpec | services/database.py:145-170 | after a run of upserts an id is listed exactly when it was listed before or some record carries it, and its sources are its old sources followed by its new ones in order of first upsert |
| Database.FirstSourceStays | services/database.py:150-153 | an id's first source stays first, so `find` keeps returning the same source's record |
| Database.SourcesAfterExample | services/database.py:145-156 | records of one id from sources `x` and then `y` list the sources as `[x, y]` |
| Database.NewSourceValid | services/database.py:150-153 | a new source of a stored id is appended and counted |
| Database.OldSourceValid | services/database.py:150-153 | an existing pair is overwritten and not counted |
| Database.NewIdValid | services/database.py:154-156 | a new id is appended with its one source and counted |
| Database.RecordsOfSpec | services/database.py:207-211 | the records of a stored id are its records in source order, each filed under that id and source |
| Database.RecordsMember | services/database.py:195-214 | a record is found exactly when its id is listed and it is stored |
| Database.Records | services/database.py:195-214 | no stored id among those asked for gives `[]` |
| Database.RawHotelDB.constructor | services/database.py:141-143 | an empty store with count 0 |
| Database.RawHotelDB.Length | services/database.py:43-47 | `length()` is the number of stored (id, source) pairs |
| Database.RawHotelDB.UpdateOne | services/database.py:145-162 | the record is filed under its id and source; a new id or source is appended; the count grows only for a new pair |
| Database.RawHotelDB.UpdateMany | services/database.py:164-170 | `update_one` on each record in order: the records, the ids in first-seen order and each id's sources in order of first upsert are those the upserts give; the store stays valid |
| Database.RawHotelDB.Find | services/database.py:172-193 | a truthy destination finds nothing; otherwise the record of the id's first source, if the id is stored |
| Database.RawHotelDB.FindAll | services/database.py:195-214 | no ids give `[]`; otherwise the records of each listed id in turn |
| Service.GroupsFor | services/hotel.py:74-84 | one group per listed id, in that order |
| Service.GroupOf | services/hotel.py:79-83 | a group is no longer than the input and holds only records of its id |
| Service.Groups | services/hotel.py:74-84 | one group per distinct id, in first-seen order, each holding only records of its id |
| Service.MergeGroups | services/hotel.py:92-106 | a successful loop yields at most one record per batch, each with source `"merged"` and a re-validated location |
| Service.NormalizeAll | services/hotel.py:35 | every record normalised, order and length kept |
| Service.StoreBatches | services/hotel.py:92-96 | each id's batch is the raw store's records for that id alone |
| Service.HotelService.constructor | services/hotel.py:9-20 | the service holds the records, the configuration and the optional store |
| Service.HotelService.NormalizeHotels | services/hotel.py:29-42 | the records are normalised; with a store, they are then upserted into it in order, which fixes its records, its ids and each id's sources |
| Service.HotelService.UpdateRawHotelDB | services/hotel.py:44-56 | `update_one` on every record, in order, which fixes the store's records, its ids and each id's sources |
| Service.HotelService.GroupHotelsById | services/hotel.py:74-84 | the ids in first-seen order, each mapped to its records in input order |
| Service.HotelService.MergeHotelsWithDb | services/hotel.py:86-106 | each id's batch comes from the store; the records are replaced only when every merge succeeds |
| Service.HotelService.MergeHotelsWithoutDb | services/hotel.py:108-123 | each group is merged on its own; the records are replaced only when every merge succeeds |
| Service.HotelService.MergeHotels | services/hotel.py:58-72 | group, then merge from the store when there is one and from the groups otherwise; on a failure the records are unchanged |
| Service.MergeGroupsFail | services/hotel.py:99-106 | a merge that raises ends the loop |
| Service.GroupOfCount | services/hotel.py:79-83 | a group holds each record of its id as often as the input does, and no other record |
| Service.GroupOfSpec | services/hotel.py:79-83 | a group holds exactly the records of its id, and is empty exactly when no record has the id |
| Service.GroupsForFlatten | services/hotel.py:74-84 | the groups of distinct ids together hold every record whose id is listed, as often as in the input |
| Service.GroupsSpec | services/hotel.py:74-84 | grouping is a partition: no group is empty, and all groups together are a permutation of the input |
| Service.MergeGroupsFailure | services/hotel.py:92-106 | merging raises exactly when some batch's merge raises, and then with the first such error |
| Service.MergeGroupsRaises | services/hotel.py:99-106 | the loop raises exactly when some batch's merge raises |
| Service.MergeGroupsFirstError | services/hotel.py:99-106 | the error raised is that of the first batch whose merge raises |
| Service.GroupsFailure | services/hotel.py:74-123 | merging the groups raises exactly when the merge of some record's group raises |
| Service.GroupsMerged | services/hotel.py:74-123 | a successful merge of the groups gives one record per distinct id, in first-seen order, each the merge of its group |
| Service.MergeGroupsLength | services/hotel.py:99-101 | at most one merged record per batch |
| Service.MergeGroupsMembers | services/hotel.py:99-101 | the merged list holds the record of each batch whose merge returned one, and nothing else |
| Service.MergeGroupsSound | services/hotel.py:99-101 | every merged record is the record that some batch merged to |
| Service.MergeGroupsComplete | services/hotel.py:99-101 | the record of every batch that merged to one is in the merged list |
| Service.MergeGroupsAll | services/hotel.py:99-101 | with no empty batch, exactly one merged record per batch, in order |
| Service.MergeWithoutStore | services/hotel.py:108-123 | without a store, merging raises exactly when some group's merge raises; otherwise there is one record per distinct input id, in first-seen order and so no id twice, each the merge of its group |
| Service.StoreBatchOf | services/hotel.py:94-96 | a store batch is the id's records in source order, non-empty exactly when the id is stored |
| Service.MergeWithStore | services/hotel.py:86-106 | with a store holding every grouped id: merging raises exactly when some id's merge raises; otherwise one record per id, in order |
| Service.UpsertedIdsStored | services/hotel.py:38-50 | after the upserts every fetched id is stored |
| Service.MergeAfterUpserts | services/hotel.py:58-106 | with a store, after the upserts a successful merge has exactly one record per distinct fetched id |
| Service.NormalizedDescriptions | services/normalizer.py:60-67 | with a description normaliser every normalised record has a description |
| Service.MergeNormalizedFailure | services/hotel.py:58-123 | after normalisation with a description normaliser, merging without a store can only fail in the images merger |
| Service.ShippedMergeFailure | main.py:48-65 | under the shipped normalisers and mergers, such a failure is always the images merger's |

## Left out

- Logging (`utils/logger.py`) is not part of this model. The exception
  classes are reduced to error values: `Failure` for a merger, `MergeError`
  for `DataMerger.merge`, and `Option<MergeError>` for the service.
- Fetching from suppliers (`suppliers/`), the API layer (`api/`), output
  formatting and `main.py`'s argument parsing are not part of this model.
  main.py appears only as the shipped normaliser and merger configuration.
- The supplier endpoints in `configs/config.py` are left out. Only the bias
  table is modelled.
- `HttpUrl` validation of image links is not modelled, because a link is an
  opaque string here.
- Latitude and longitude are reals, not floats, so no rounding is modelled.
- Bias.MeanScore, Bias.GetBiasScore, Bias.CompareBias, Bias.MeanBounds,
  Bias.MeanConstant and Bias.CompareBiasCases compute bias scores and their
  mean over exact reals, while Python uses floats. The means and ties they
  state hold over reals, not over floats. For example, three factors that
  each score a source 0.1 give a float mean slightly above 0.1, so in Python
  that source beats one scored 0.1 by a single factor; the model calls the two
  a tie and goes on to the length rule. The shipped table's scores (all 0.9,
  Bias.ShippedMean) tie in both.
- `lower()` is ASCII lowercasing. This is exact here, because `clean_text`
  leaves only ASCII letters.
- The `isinstance(text, str)` guards of the cleaner are modelled with one
  `Option<string>` input, where `None` stands for any non-string. The
  normaliser and decode error paths cannot be reached on typed records, so
  they carry no error value.
- Python's `\s` and `str.isspace()` are modelled by one fixed whitespace
  set.
- `unmerged_variables` and `source_variable_name` in `BaseDataMerger`:
  `unmerged_variables` is stored but never read, and the source attribute is
  always `source`.
- The mergers are wired to fields by a fixed `Attribute` per merger, as in
  main.py. A dictionary pairing an arbitrary merger with an arbitrary field
  is not modelled.
- The `get` property of `HotelService` just returns the data field, so it
  has no separate member.
- Database.HotelDB.FindAll: the source walks a `set` of ids, whose order is
  unspecified. The model walks the ids in first-seen order, and its contract
  states only what holds for every order: each record appears once, and the
  set of records is exact.
- Database.RawHotelDB.FindAll ignores the destination filter, as the source
  does.
- Destination ids are integers, and a destination argument counts as given
  when it is present and non-zero, as Python truthiness would have it. The
  source's callers sometimes pass strings; that mismatch with the declared
  `int` is not modelled.
- Normalizer.Normalize works on an array copy of the records. The source
  mutates the pydantic objects themselves, so aliasing between a record in
  the list and the same object elsewhere is not modelled. In the source, a
  record upserted into the raw store is the same object as the one in the
  service's list.
- Service.HotelService.MergeHotels: the source raises `HotelServiceException`.
  The model returns the error and leaves the records unchanged, which is
  what the source's state is after the raise.
- Service.MergeNormalizedFailure covers only the merge without a store. With
  a store, batches can also hold records stored by earlier runs, which need
  not have been normalised.
