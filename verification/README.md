# Reference reconciliation, modelled in Dafny

This project models the core of arXiv's reference-extraction service. Several extractors (CERMINE, GROBID, refextract, ScienceParse) each return their own ordered list of reference records for one document. The reconciliation pipeline turns those lists into one consensus list with a quality score, in these steps:

- each extractor's list is normalised;
- references that denote the same citation are aligned into groups;
- every field value gets a plausibility belief;
- each group is arbitrated field by field with prior-weighted voting;
- weak records are filtered out and a composite score is computed.

Both generations of the merge code are modelled. The current code lives under `references/process/merge`, and the older one under `reflink/process/merge` (the older alignment is the only one available). The model also covers the small pieces around the pipeline:

- the `Reference` data model with its truncated Base64 identifier;
- the data store's recursive `clean`;
- the controller that resolves a stored reference to an external link or a Google Scholar query;
- the refextract and ScienceParse adapters that turn dicts into references;
- the extractor fan-out loop and its quality estimate;
- the extraction request/status controller;
- the Kinesis consumer's sequence tracking and checkpoint retries.

Python values are one datatype, `Json.Value`. It covers None, bool, int, float (as `real`), str, list, dict and dataclass instances. Dicts are ordered association lists (`Tables`), so iteration order is the insertion order Python keeps. An exception is a `Base.Result` error carrying the exception's class, and `try`/`except` becomes a match on that result. Scores are exact `real`s. The string operations the code relies on live in `Text`, written out on `seq<char>`: split, strip, replace, title case, `int()` and `str()`. Three more modules write out the rest by hand: the regular expressions the belief functions use (`Patterns`), Levenshtein distance and Base64 encoding.

The helpers the code imports and that are not part of this model are fields of one `Externals.Env` value passed to every operation that needs them:

- `clean_text`;
- `unidecode`;
- the bloom filters;
- the DOI, ISBN and strict arXiv regular expressions;
- `arxiv.taxonomy.ARCHIVES`;
- the `repr` of a float;
- `urlencode`;
- `is_valid_url`.

The clocks, the checkpointer's replies, the task queue and the data store are parameters of the operations that consult them.

Where the source has a bug, the model states the code as written, and these as-written definitions are what the pipeline members use: `Normalize.NormalizeRecord`, `Arbitrate.Arbitrate`, `Merge.MergeRecords`, `Refextract.Transform`, `ExtractedReferences.Resolve` and `Extraction.StatusAsWritten`. Each such bug also has a corrected definition with the intended property proved about it; both appear under "## Findings".

A few behaviours of the code that shape the model:

- Records are normalised per extractor, before alignment (references/process/merge/__init__.py:53-55).
- Alignment does not keep an extractor to one record per group: `used` is set to an empty list and never appended to (reflink/process/merge/align.py:170-191).
- Arbitration's quality factor reads `result.get('arxiv')`, a key no `Reference` field has, since the field is `arxiv_id`. Only a DOI or the four core fields give 1.0 (references/process/merge/arbitrate.py:217-222).
- The `_similarity` docstring promises a value in 0..1 (references/process/merge/arbitrate.py:108-110), but the numeric similarity goes above 1 for two different numbers with a negative sum and below 0 for numbers far apart (references/process/merge/arbitrate.py:57-63).
- The older `filter_records` returns new dicts with a `score` key and leaves its input untouched (reflink/process/merge/normalize.py:27-33). The current one sets `score` on every `Reference` it is given, dropped ones included (references/process/merge/normalize.py:114-118).

## Model

| member | source | states |
|---|---|---|
| Domain.AuthorValue | references/domain.py:10-18 | an `Author` travels as a dataclass instance whose attributes are exactly surname, givennames, prefix, suffix and fullname, in that order |
| Domain.IdentifierValue | references/domain.py:21-27 | an `Identifier` travels as a dataclass instance with exactly the two attributes `identifer_type` and `identifier` |
| Domain.IdentifierFromKeywords | references/domain.py:21-27 | `Identifier(**kwargs)` succeeds only when both declared keywords are present, and the correctly spelled `identifier_type` raises TypeError because the class declares `identifer_type` |
| Domain.ReferenceFieldsComplete | references/domain.py:30-55 | the declared field list holds every field of `Reference` |
| Domain.FieldNamedName | references/domain.py:30-55 | every field's name looks up that same field |
| Domain.NameInjective | references/domain.py:30-55 | two fields with the same name are the same field |
| Domain.FieldKeysAll | references/domain.py:30-55 | the key-by-key keyword check accepts exactly the key lists whose every key names a field |
| Domain.IdentifierFor | references/domain.py:57-60 | the identifier `__post_init__` computes is at most 100 characters long |
| Domain.AsciiBytes | references/domain.py:59 | `bytes(s, 'ascii')` has one byte per character, each the character's code |
| Domain.NewReference | references/domain.py:30-60 | `Reference(**kwargs)` raises TypeError for an unknown keyword; it succeeds exactly when every keyword is a field and `raw` is a string; the built reference keeps that `raw` and its identifier is the one `raw` determines |
| Domain.NewReferenceKeys | references/domain.py:30-55 | construction succeeds exactly when every keyword names a field and `raw` is a string, and any unknown keyword makes it raise TypeError |
| Domain.NewReferenceField | references/domain.py:34-55 | every field of a built reference other than `identifier` holds its keyword argument, or the declared default when the keyword is absent |
| Domain.Assemble | references/domain.py:57-60 | the assembled instance keeps `raw` and sets the identifier from it |
| Domain.AssembleFields | references/domain.py:34-55 | every field other than `raw` and `identifier` holds its keyword, or its default |
| Domain.WithField | references/domain.py:30-55 | setting one attribute changes that field to the new value and leaves every other field as it was |
| Domain.AsDict | references/domain.py:6 | `asdict` maps None to None and only None, keeps the truthiness of every non-dataclass value, and turns a dataclass instance into a dict with the same keys in the same order |
| Domain.AllFields | references/domain.py:64 | `asdict(reference)` lists every field in declaration order, each with the `asdict` form of its value |
| Domain.FieldsOfGet | references/domain.py:62-64 | after dropping None values a field is present exactly when it is listed and not None, with its `asdict` form |
| Domain.ToDictGet | references/domain.py:62-64 | `to_dict` keeps a field exactly when it is not None, with its `asdict` value; empty strings, empty lists and zero stay |
| Domain.ToDictKeys | references/domain.py:62-64 | every key `to_dict` produces names a field |
| Domain.IdentifierDependsOnRaw | references/domain.py:57-60 | two references with the same `raw` have the same identifier |
| Domain.AsciiBytesInjective | references/domain.py:59 | different ASCII strings give different byte strings |
| Domain.EncodedFits | references/domain.py:60 | the Base64 text of at most 75 bytes is at most 100 characters long, so the `[:100]` cut does not bite |
| Domain.ShortIdentifiersDistinguish | references/domain.py:57-60 | for transliterations of at most 75 characters, equal identifiers mean equal transliterated `raw` text |
| Domain.PaddedValue | references/domain.py:95-96 | a zero-padded field of an ISO timestamp reads back as the number it encodes |
| Domain.TripleRoundTrip | references/domain.py:95-96 | the date part and the time part of an ISO timestamp parse back to their three numbers |
| Domain.IsoFormat | references/domain.py:95-96 | `isoformat()` is 19 characters, or 26 when there is a microsecond part |
| Domain.IsoFormatRoundTrip | references/domain.py:92-97 | the timestamps `ReferenceSet.to_dict` writes parse back to the same instants |
| Domain.NewReferenceSet | references/domain.py:67-90 | a new reference set defaults to extractor `combined`, no extractors and raw False |
| Domain.ReferencesAsDicts | references/domain.py:94 | each nested reference becomes the dict of all its fields, in order |
| Domain.SetToDict | references/domain.py:92-97 | `ReferenceSet.to_dict` has the nine fields, with `created` and `updated` replaced by their ISO-8601 text |
| Base64.LetterValueOfLetter | references/domain.py:60 | reading a letter of the standard Base64 alphabet back gives its six-bit value |
| Base64.Encode | references/domain.py:60 | `b64encode` output is four characters for every started group of three bytes |
| Base64.DecodeEncodeGroup | references/domain.py:60 | a three-byte group encodes to four letters that decode back to the same bytes |
| Base64.DecodeEncodeOne | references/domain.py:60 | a padded group of one byte decodes back to that byte |
| Base64.DecodeEncodeTwo | references/domain.py:60 | a padded group of two bytes decodes back to those bytes |
| Base64.DecodeEncode | references/domain.py:60 | decoding the Base64 text of any byte string gives the byte string back, so the encoding loses nothing |
| Levenshtein.DistanceAtMostMaxLen | references/process/merge/arbitrate.py:69-71 | the edit distance never exceeds the longer string's length, so the similarity stays in [0, 1] |
| Levenshtein.DistanceZeroIff | references/process/merge/arbitrate.py:69-71 | the edit distance is 0 exactly when the strings are equal |
| Levenshtein.DistanceSymmetric | references/process/merge/arbitrate.py:69-71 | the edit distance does not depend on argument order |
| Arbitrate.Validate | references/process/merge/arbitrate.py:39-54 | an extractor without priors raises ValueError about missing priors. Once every prior is present, validation passes exactly when the two dicts have the same size and every metadata key is in the validity dict; the only other error is the shape ValueError |
| Arbitrate.ValidateSameKeys | references/process/merge/arbitrate.py:39-54 | dicts keyed by exactly the extractors pass validation |
| Arbitrate.ValidateMissingPrior | references/process/merge/arbitrate.py:42-47 | any extractor missing from the priors makes validation fail with the missing-priors error |
| Arbitrate.ValidateMissingKey | references/process/merge/arbitrate.py:48-54 | with all priors present, a metadata key absent from the validity dict fails with the shape error |
| Arbitrate.ValidatedKeysAgree | references/process/merge/arbitrate.py:48-54 | on dicts, passing validation means metadata and validity name exactly the same extractors |
| Arbitrate.NumberSimilarity | references/process/merge/arbitrate.py:57-63 | equal non-zero numbers score 1 and a zero mean scores 0. For non-negative inputs the score is at most 1, and it is 1 only for equal numbers. Two distinct numbers with a negative sum score above 1 |
| Arbitrate.NumberSimilaritySymmetric | references/process/merge/arbitrate.py:57-63 | numeric similarity does not depend on argument order |
| Arbitrate.NumberSimilarityOutOfRange | references/process/merge/arbitrate.py:57-63 | the docstring promises a score in [0, 1], but 0 against 1 scores -1 and -1 against -2 scores 5/3 |
| Arbitrate.BoundedNumberSimilarity | references/process/merge/arbitrate.py:57-63 | the corrected score, scaled by the mean magnitude and clamped at 0, always lies in [0, 1]. Unless both numbers are 0, it is 1 exactly when they are equal. It agrees with the written score wherever that score is already in range for non-negative numbers |
| Arbitrate.BoundedNumberSimilaritySymmetric | references/process/merge/arbitrate.py:57-63 | the corrected score does not depend on argument order |
| Arbitrate.StrSimilarity | references/process/merge/arbitrate.py:66-72 | string similarity lies in [0, 1]. It is 0 for two empty strings and 1 exactly when the strings are equal and non-empty |
| Arbitrate.StrSimilaritySymmetric | references/process/merge/arbitrate.py:66-72 | string similarity does not depend on argument order |
| Arbitrate.ScalarSimilarity | references/process/merge/arbitrate.py:96-121 | two numbers compare numerically and two strings by edit distance; any other pair of scalars, mixed kinds included, scores 0 |
| Arbitrate.KeyUnion | references/process/merge/arbitrate.py:77 | the keys compared are exactly those present in either dict |
| Arbitrate.Similarity | references/process/merge/arbitrate.py:96-121 | values other than two dicts or two lists get the scalar similarity, and two empty dicts raise StatisticsError from `mean([])` |
| Arbitrate.DictSimilarity | references/process/merge/arbitrate.py:75-80 | comparing two empty dicts raises StatisticsError |
| Arbitrate.Prepared | references/process/merge/arbitrate.py:124-128 | the prepared value is always hashable. A hashable value is kept as it is and an unhashable one becomes its `str` |
| Arbitrate.PreparedSimilarity | references/process/merge/arbitrate.py:170-176 | pooling compares only prepared values, so the dict and list branches of `_similarity` are never reached from `_pool` |
| Arbitrate.SameApart | references/process/merge/arbitrate.py:181-186 | under Python key equality, a key equal to one bucket key and unequal to another tells those two apart |
| Arbitrate.StepTotal | references/process/merge/arbitrate.py:176-187 | one similar candidate, whether it is taken over or joined, adds exactly the value's weight to the bucket total |
| Arbitrate.SimilarCountPositive | references/process/merge/arbitrate.py:174-189 | a value resembles at least one candidate of the snapshot exactly when some candidate reaches the threshold; only then is the fresh-entry branch skipped |
| Arbitrate.TakeOverTotal | references/process/merge/arbitrate.py:181-184 | taking over a bucket entry moves its weight to the new key, so the bucket total grows by exactly the new weight |
| Arbitrate.Visit | references/process/merge/arbitrate.py:174-187 | the match flag is set exactly when some candidate in the snapshot is similar enough |
| Arbitrate.PoolValueTotal | references/process/merge/arbitrate.py:173-189 | since the candidate loop does not break, the bucket total grows by the value's weight once per similar candidate, or once when none is similar |
| Arbitrate.PoolValueFresh | references/process/merge/arbitrate.py:188-189 | a value resembling no candidate is added under its own key with its own weight |
| Arbitrate.PoolValueTakesOver | references/process/merge/arbitrate.py:181-184 | a different, similar value with strictly more weight replaces the candidate and carries both weights |
| Arbitrate.PoolValueJoins | references/process/merge/arbitrate.py:185-186 | otherwise the similar candidate keeps its key and gains the weight |
| Arbitrate.PoolValueNoBreak | references/process/merge/arbitrate.py:175-187 | two distinct similar candidates that both outweigh the value each gain its weight |
| Arbitrate.PoolValueNonNegative | references/process/merge/arbitrate.py:173-189 | pooling a non-negative weight into a bucket of non-negative weights keeps them all non-negative |
| Arbitrate.FieldPrior | references/process/merge/arbitrate.py:268-269 | the prior is the field's own prior, else the `__all__` prior, else 0 |
| Arbitrate.Weight | references/process/merge/arbitrate.py:265-271 | a field without stated validity weighs 0, and so does an extractor with neither a field prior nor `__all__` |
| Arbitrate.WeightStated | references/process/merge/arbitrate.py:265-271 | a stated validity times the field prior is the weight |
| Arbitrate.WeightWithin | references/process/merge/arbitrate.py:265-271 | validities and priors in [0, 1] give a weight in [0, 1] |
| Arbitrate.WeightNonNegative | references/process/merge/arbitrate.py:265-271 | non-negative validities and priors give a non-negative weight |
| Arbitrate.PoolField | references/process/merge/arbitrate.py:169-189 | a None value leaves every bucket alone, and no bucket but the field's own ever changes |
| Arbitrate.PoolRecord | references/process/merge/arbitrate.py:169-189 | pooling one record creates buckets only for the fields it visits and keeps bucket keys unique |
| Arbitrate.Pool | references/process/merge/arbitrate.py:162-192 | the pooled dict has buckets only for the arbitrated fields and one bucket per field |
| Arbitrate.PoolRecordSkipsNone | references/process/merge/arbitrate.py:170-172 | a field the record leaves None keeps its bucket through the record |
| Arbitrate.PoolSkipsNone | references/process/merge/arbitrate.py:168-172 | a field that every record leaves None is never pooled |
| Arbitrate.PoolNonNegative | references/process/merge/arbitrate.py:162-192 | with non-negative weights every pooled weight is non-negative |
| Arbitrate.Cast | references/process/merge/arbitrate.py:131-143 | a year in text is parsed as an int, and non-integer text becomes None. Authors and identifiers pooled from a list come back as that list, and a list holding dataclass instances raises NameError. A non-text value raises TypeError in `eval`. Other fields pass through |
| Arbitrate.FixAuthor | references/process/merge/arbitrate.py:150-158 | an author without `.get` passes through unchanged |
| Arbitrate.FixAuthorRule | references/process/merge/arbitrate.py:150-155 | a dict author with truthy given names and surname and no truthy full name gets `"givennames surname"`; every other key stays |
| Arbitrate.FixAuthorIdempotent | references/process/merge/arbitrate.py:146-159 | fixing an author twice changes nothing more |
| Arbitrate.FixAuthorStable | references/process/merge/arbitrate.py:154 | an author that already has a full name, or lacks given names or surname, is left as it was |
| Arbitrate.FixAuthors | references/process/merge/arbitrate.py:146-159 | a list is fixed author by author, keeping its length. A string falls apart into its characters, and a non-iterable raises TypeError |
| Arbitrate.FixAuthorsIdempotent | references/process/merge/arbitrate.py:146-159 | fixing a list of authors twice gives the same list as fixing it once |
| Arbitrate.Grade | references/process/merge/arbitrate.py:217-222 | the score lies in [0, 1]. It is 1 exactly when a DOI or arXiv entry is truthy, or all four core fields are, and 0 when none of the six is |
| Arbitrate.Quality | references/process/merge/arbitrate.py:217-222 | the score of a result dict, with the same bounds and the same condition for full marks |
| Arbitrate.QualityOfFields | references/process/merge/arbitrate.py:219 | on a dict of `Reference` fields only a DOI or all four core fields give full marks, because `arxiv` is not a field |
| Arbitrate.QualityIgnoresArxivId | references/process/merge/arbitrate.py:219 | the `arxiv_id` field never changes the score |
| Arbitrate.ArxivIdOnly | references/process/merge/arbitrate.py:217-222 | a result holding only a non-empty `arxiv_id` scores 0 as written, and 1 under the corrected grade |
| Arbitrate.IntendedQuality | references/process/merge/arbitrate.py:217-222 | the corrected grade reads `arxiv_id`. It lies in [0, 1] and is 1 exactly when a DOI, an arXiv id or all four core fields are truthy |
| Arbitrate.IntendedQualityAgrees | references/process/merge/arbitrate.py:217-222 | on a dict of reference fields without a truthy `arxiv_id`, the corrected grade equals the written one |
| Arbitrate.Pick | references/process/merge/arbitrate.py:204-209 | `argmax` of the normalised weights is the first candidate of greatest weight |
| Arbitrate.Choose | references/process/merge/arbitrate.py:199-212 | an empty bucket, or one whose weights do not sum to a positive number, is skipped. Otherwise the winner is cast back, authors are fixed, and its share is its weight over the total, within [0, 1] for non-negative weights |
| Arbitrate.SelectAll | references/process/merge/arbitrate.py:197-212 | at most one winning share per pooled field |
| Arbitrate.SelectAllShares | references/process/merge/arbitrate.py:197-212 | with non-negative weights every winning share lies in [0, 1] |
| Arbitrate.SelectAllLast | references/process/merge/arbitrate.py:199-212 | each loop step adds the field's choice to the earlier selection, or adds nothing when the field has no choice |
| Arbitrate.SelectAllFields | references/process/merge/arbitrate.py:199-212 | an unpooled field is absent from the result, and a pooled field holds exactly its bucket's choice |
| Arbitrate.Finish | references/process/merge/arbitrate.py:213-214 | a failing `Reference(**result)` propagates and no shares raise StatisticsError. Otherwise the score is quality times the mean share, and it lies in [0, 1] when the shares do |
| Arbitrate.SelectScoreWithin | references/process/merge/arbitrate.py:195-214 | with non-negative pooled weights, a successful selection scores within [0, 1] |
| Arbitrate.ArbitrateMissingPriors | references/process/merge/arbitrate.py:252-257 | an extractor without priors fails validation before anything is pooled |
| Arbitrate.ArbitrateValidated | references/process/merge/arbitrate.py:225-276 | `arbitrate` is validation, then pooling of the arbitrated fields with the stated weights, then selection; a failed validation returns its error |
| Arbitrate.ArbitrateNothingKnown | references/process/merge/arbitrate.py:225-276 | when every extractor leaves every field None, nothing is selected and the mean of no shares raises StatisticsError, unless validation failed first |
| Arbitrate.ArbitrateScoreWithin | references/process/merge/arbitrate.py:225-276 | with non-negative validities and priors a successful arbitration scores within [0, 1] |
| Arbitrate.DecideNothingKnown | references/process/merge/arbitrate.py:252-276 | on keyed dicts, when every field of every record is None, arbitration returns the validation error if validation fails, and otherwise StatisticsError from the mean of no shares |
| Arbitrate.DecideScoreWithin | references/process/merge/arbitrate.py:252-276 | on keyed dicts, non-negative validities and priors give a successful arbitration a score in [0, 1] |
| Arbitrate.WeightsFromNonNegative | references/process/merge/arbitrate.py:265-271 | non-negative validities and priors make every field weight non-negative |
| Arbitrate.ArbitrateAll | references/process/merge/arbitrate.py:279-303 | `map` pairs the lists up to the shorter one. The result succeeds exactly when each pair arbitrates, holds each pair's outcome in order, and otherwise carries some pair's error |
| ArbitrateLegacy.AddNew | reflink/process/merge/arbitrate.py:54-56 | adding keys to a duplicate-free list keeps it duplicate-free, and the result holds exactly the old keys and the new ones |
| ArbitrateLegacy.FieldUnion | reflink/process/merge/arbitrate.py:54-56 | the fields are every key of every record, each listed once |
| ArbitrateLegacy.Probs | reflink/process/merge/arbitrate.py:58-63 | one weight per extractor, each the extractor's validity for the field times its field prior, falling back to `__all__` and then 0 |
| ArbitrateLegacy.Winner | reflink/process/merge/arbitrate.py:65 | `argmax` picks the first extractor of greatest weight |
| ArbitrateLegacy.Top | reflink/process/merge/arbitrate.py:66 | the winning weight is some extractor's weight, and no extractor weighs more |
| ArbitrateLegacy.ChooseWith | reflink/process/merge/arbitrate.py:68-71 | every field takes its winner's value, keyed in field order, alongside its winning weight. The first field whose winner's record lacks it raises KeyError, and the result succeeds exactly when no winner lacks its field |
| ArbitrateLegacy.Arbitrate | reflink/process/merge/arbitrate.py:35-52 | a failed priors or shape check returns the same ValueError as the current pipeline |
| ArbitrateLegacy.Decide | reflink/process/merge/arbitrate.py:54-71 | with no fields at all `mean([])` raises StatisticsError, and only then. Otherwise the record has exactly the union of fields and the score is the mean winning weight |
| ArbitrateLegacy.ArbitrateAll | reflink/process/merge/arbitrate.py:74-96 | `map` pairs the lists up to the shorter one. The result succeeds exactly when each pair does, holds each pair's outcome in order, and otherwise carries some pair's error |
| ArbitrateLegacy.TopWithin | reflink/process/merge/arbitrate.py:58-66 | with probabilities for validities and priors every winning weight is a probability |
| ArbitrateLegacy.ScoreWithin | reflink/process/merge/arbitrate.py:12-71 | with probabilities for validities and priors a successful score lies in [0, 1] |
| ArbitrateLegacy.DecideWithin | reflink/process/merge/arbitrate.py:54-71 | the mean of winning weights that are probabilities is a probability |
| ArbitrateLegacy.ChosenWithin | reflink/process/merge/arbitrate.py:68-71 | winning weights that are each a probability are kept as probabilities |
| ArbitrateLegacyExample.PickFirst | reflink/process/merge/arbitrate.py:65-70 | of three extractors the first wins a field that no other outweighs |
| ArbitrateLegacyExample.PickSecond | reflink/process/merge/arbitrate.py:65-70 | the second wins a field it weighs strictly more than the first and no less than the third |
| ArbitrateLegacyExample.PickThird | reflink/process/merge/arbitrate.py:65-70 | the third wins a field it weighs strictly more than both others |
| ArbitrateLegacyExample.UnionOfFields | tests/test_process_arbitrate.py:10-15 | the example's fields are title, doi, volume and foo |
| ArbitrateLegacyExample.ChooseFour | reflink/process/merge/arbitrate.py:68-71 | once each of the four fields has a winner, the record lists them in field order with their weights |
| ArbitrateLegacyExample.ArbitrateExample | reflink/process/merge/arbitrate.py:35-71 | on the example the outcome is the four winners and the mean of their weights |
| ArbitrateLegacyExample.Example | tests/test_process_arbitrate.py:8-34 | the example arbitrates to title 'yep', DOI '10.123/123.4566', volume '12' and foo 'bar', with score 0.625 |
| ArbitrateLegacyExample.ExampleWithoutDoiPrior | tests/test_process_arbitrate.py:36-56 | without cermine's DOI prior, refextract's 'nonsense' wins the DOI |
| ArbitrateLegacyExample.MisalignedValidity | tests/test_process_arbitrate.py:58-64 | validity naming another extractor fails the shape check with ValueError |
| ArbitrateLegacyExample.MisalignedPriors | tests/test_process_arbitrate.py:66-70 | priors naming another extractor fail the priors check with ValueError |
| Align.Argmax | reflink/process/merge/align.py:9-11 | `max` of an empty list raises ValueError, and only then. Otherwise the index is that of the first greatest value |
| Align.SetJacard | reflink/process/merge/align.py:29-36 | the ratio lies in [0, 1] and is 0 when both word sets are empty |
| Align.Jacard | reflink/process/merge/align.py:14-36 | the similarity of two strings' word sets lies in [0, 1] and is 0 when neither has a word |
| Align.JacardSymmetric | reflink/process/merge/align.py:14-36 | the similarity does not depend on argument order |
| Align.JacardOneIff | reflink/process/merge/align.py:14-36 | the similarity is 1 exactly when both strings have the same non-empty set of words |
| Align.StripBad | reflink/process/merge/align.py:55 | removing the bad keys keeps lists as lists, dicts as dicts, and scalars as they are |
| Align.DigestStripBad | reflink/process/merge/align.py:39-68 | stripping `raw`, `doi` and `identifiers` at every depth leaves the digest unchanged |
| Align.DigestIgnoresBadKeys | reflink/process/merge/align.py:39-68 | records that differ only under bad keys have the same digest |
| Align.Flatten | reflink/process/merge/align.py:71-79 | a value that is neither a list nor a dict flattens to itself alone |
| Align.FlattenLeaves | reflink/process/merge/align.py:71-79 | everything `flatten` returns is a leaf |
| Align.FlattenItemsAppend | reflink/process/merge/align.py:76-78 | flattening concatenated lists gives the concatenation of their flattenings |
| Align.FlattenIdempotent | reflink/process/merge/align.py:71-79 | flattening a flattened structure changes nothing |
| Align.JacardMax | reflink/process/merge/align.py:160-162 | the group score is the greatest similarity to any member of the group, and some member reaches it |
| Align.BestUpTo | reflink/process/merge/align.py:181-195 | `reversed(sorted(scores))[0]` over the first `n` groups is the highest score strictly above the cutoff, on a tie the last such group, or none when no score clears the cutoff |
| Align.BestGroup | reflink/process/merge/align.py:181-195 | the chosen group scores strictly above the cutoff and highest of all, and no later group ties it; no group is chosen only when none clears the cutoff |
| Align.BestGroupUnique | reflink/process/merge/align.py:181-195 | any group with those properties is the one chosen |
| Align.AlignStep | reflink/process/merge/align.py:174-198 | a reference joins the end of the best group above the cutoff, or else opens a new group at the end. Groups stay non-empty and earlier groups only grow |
| Align.Extend | reflink/process/merge/align.py:196 | `output[index] + entry` appends to exactly that group |
| Align.AlignRefs | reflink/process/merge/align.py:174-198 | one extractor's references never shrink or remove a group |
| Align.AlignFrom | reflink/process/merge/align.py:170-198 | the later extractors never shrink or remove a group |
| Align.Seed | reflink/process/merge/align.py:169 | the first extractor's references seed one group each, in order |
| Align.AlignRecords | reflink/process/merge/align.py:98-200 | the call to `similarity_cutoff` fails first on too few extractors: none raises ValueError from `max` of nothing, one raises StatisticsError from the median of an empty matrix, and two or more always succeed. Then no group is empty, and the first extractor's references head the first groups in order |
| Align.ConcatUpdate | reflink/process/merge/align.py:196 | adding an entry to one group adds exactly that entry to the entries overall |
| Align.AlignRecordsPartition | reflink/process/merge/align.py:130-200 | the groups hold exactly the input references, each tagged with its extractor and each exactly once |
| Align.BestGroupLoop | reflink/process/merge/align.py:181-195 | the loop over the group scores finds the group the sort-based choice names |
| Align.AlignRefsLoop | reflink/process/merge/align.py:174-198 | the loop over one extractor's references gives the recursive definition's groups |
| Align.AlignRecordsLoop | reflink/process/merge/align.py:168-200 | the nested loops of `align_records` give the recursive definition's groups |
| Align.StepInto | reflink/process/merge/align.py:193-196 | a reference joins the only group whose score clears the cutoff |
| Align.StepNew | reflink/process/merge/align.py:193-198 | a reference that clears the cutoff nowhere opens a new group |
| Align.OneExtractorTwiceInAGroup | reflink/process/merge/align.py:171-191 | `used` is never filled in, so one extractor can put two references into the same group |
| Align.DuplicateJoinsTwice | reflink/process/merge/align.py:171-191 | with the digest similarity, a second extractor that lists a reference twice puts both copies into its group for any cutoff below 1 |
| Align.ThreeExtractorsBySimilarity | reflink/process/merge/align.py:164-200 | three extractors align as the regression test expects whenever the similarities fall on the stated sides of the cutoff |
| Align.TitleYearWords | reflink/process/merge/align.py:39-68 | a record of a one-word title and a year digests to those two words |
| Align.TitleYearSimilarity | reflink/process/merge/align.py:160-162 | two such records compare by the Jaccard ratio of their word pairs |
| Align.NothingShared | reflink/process/merge/align.py:14-36 | different titles and different years share no word and score 0 |
| Align.YearShared | reflink/process/merge/align.py:14-36 | different titles with the same year score 1/3 |
| Align.SameRecord | reflink/process/merge/align.py:14-36 | a record with a title matches itself perfectly |
| Align.MattErickJohn | references/process/merge/tests/test_align.py:18-50 | the regression batch groups the two Matts, then Erick with Eric, then John alone, for every cutoff in [0, 1/3) |
| Beliefs.BloomMatch | references/process/merge/beliefs.py:66-74 | the share of cleaned words the filter knows lies in [0, 1], and is 0 when the cleaned text has no words |
| Beliefs.WordsCheck | references/process/merge/beliefs.py:232-237 | without loaded filters the word check is `unity`. With filters a non-string fails in `clean_text`, and a string scores in [0, 1] |
| Beliefs.DoesntEndWith | references/process/merge/beliefs.py:122-125 | `doesnt_end_with` is `ends_with` on the same suffix |
| Beliefs.Length | references/process/merge/beliefs.py:80 | `len` succeeds exactly on strings, lists and dicts |
| Beliefs.MinimumLengthCheck | references/process/merge/beliefs.py:77-83 | a value with a length scores 0 exactly when it is non-empty and shorter than `n`, and otherwise 1; a value without a length raises |
| Beliefs.IsIntegerCheck | references/process/merge/beliefs.py:128-134 | scores 1 exactly when `int(value)` succeeds, otherwise 0 after a ValueError; any other exception propagates |
| Beliefs.IsYearCheck | references/process/merge/beliefs.py:160-168 | scores 1 exactly when `int(value)` succeeds and lies strictly between 1600 and 2100, otherwise 0 after a ValueError; any other exception propagates |
| Beliefs.IntegerScoresOfDigits | references/process/merge/beliefs.py:155 | every RE_INTEGER match is a run of digits, so `is_integer` gives 1 for each |
| Beliefs.IntegerLikeScore | references/process/merge/beliefs.py:148-157 | for a non-empty string the score is 0 with no match, and otherwise the share of characters the matches consume; it lies in [0, 1] |
| Beliefs.IsIntegerLikeCheck | references/process/merge/beliefs.py:137-157 | None, an empty value, a non-string and a string without integers score 0; an int or bool scores 1; any other string scores the consumed share. It never raises and stays in [0, 1] |
| Beliefs.YearScoresCount | references/process/merge/beliefs.py:177 | the `is_year` sum over the matches counts the matches in the year range |
| Beliefs.YearLikeScore | references/process/merge/beliefs.py:174-177 | the score is the share of matched numbers in the year range |
| Beliefs.IsYearLikeCheck | references/process/merge/beliefs.py:171-179 | a non-string makes `re.findall` raise, which is caught to give 0, and a string without numbers scores 0. Otherwise the score is the share of matched numbers in the year range, always in [0, 1] |
| Beliefs.IsPagesCheck | references/process/merge/beliefs.py:182-192 | a string with a leading number, a separator and a second number scores 1 when the first is smaller and 0.5 otherwise; with no such prefix it scores 0; a non-string raises |
| Beliefs.GrammarCheck | references/process/merge/beliefs.py:195-199 | a string scores 1 when the grammar matches it and 0 otherwise; a non-string raises in `re.match` |
| Beliefs.IsbnIdentifier | references/process/merge/beliefs.py:207-215 | an entry counts at most once, and only when its `identifier_type` is `isbn` |
| Beliefs.CountIsbns | references/process/merge/beliefs.py:204-215 | no more identifiers are good than there are identifiers |
| Beliefs.ValidIdentifierCheck | references/process/merge/beliefs.py:202-217 | the share of good identifiers lies in [0, 1], and an empty list raises ZeroDivisionError |
| Beliefs.SerialisedIdentifiersNeverCount | references/process/merge/beliefs.py:208 | a serialised `Identifier` spells its key `identifer_type`, so the lookup of `identifier_type` always misses and none of a reference's identifiers ever counts |
| Beliefs.ValidIdentifierOfReference | references/process/merge/beliefs.py:202-217 | so a reference's non-empty identifier list always scores 0 |
| Beliefs.NoIsbnsScoresZero | references/process/merge/beliefs.py:202-217 | a non-empty list without good ISBNs scores 0 |
| Beliefs.StrValues | references/process/merge/beliefs.py:246 | `' '.join(auth.values())` gets one string per entry when it succeeds |
| Beliefs.AuthorScore | references/process/merge/beliefs.py:246-251 | one author contributes a score in [0, 1] |
| Beliefs.WordsAuthorStructureCheck | references/process/merge/beliefs.py:240-256 | the mean author score lies in [0, 1], and no authors score 0 |
| Beliefs.Apply | references/process/merge/beliefs.py:86-125 | every check of the table scores in [0, 1], and `likely` clamps its inner check into [min_prob, max_prob] |
| Beliefs.SubstringChecks | references/process/merge/beliefs.py:102-119 | `contains` and `ends_with` score 0 for a non-string, and otherwise their true or false probability by the substring test |
| Beliefs.DoesntEndWithComplement | references/process/merge/beliefs.py:112-125 | with the default probabilities, `doesnt_end_with` and `ends_with` sum to 1 on every string |
| Beliefs.BeliefFunctions | references/process/merge/beliefs.py:259-270 | every key has at least one check, `[unity]` by default, and every check stays within [0, 1] |
| Beliefs.FieldBelief | references/process/merge/beliefs.py:293-308 | a falsy value has belief 1. Otherwise the belief is the sum of the checks' scores over the number of checks, and a raising check adds nothing but still counts in the divisor |
| Beliefs.FieldBeliefInRange | references/process/merge/beliefs.py:293-308 | every belief lies in [0, 1] |
| Beliefs.CalculateBelief | references/process/merge/beliefs.py:273-309 | there is one belief per key of `to_dict`, in the same order, each the belief in that key's value |
| Beliefs.CalculateBeliefInRange | references/process/merge/beliefs.py:273-309 | every computed belief lies in [0, 1] |
| Beliefs.YearBeliefs | references/process/merge/beliefs.py:267 | a year given as the int 2011 scores 0.75, because `re.findall` raises on an int inside `is_year_like` |
| Beliefs.Validate | references/process/merge/beliefs.py:332-354 | the beliefs have the shape of the aligned groups, each entry keeping its extractor next to the belief in its record |
| Beliefs.ValidateGroup | references/process/merge/beliefs.py:349-353 | one group keeps its length and order, each extractor next to its record's belief |
| Patterns.IntegerMatchAt | references/process/merge/beliefs.py:21-25 | a match of RE_INTEGER found at a position starts there, lies inside the string and captures a non-empty run of digits |
| Patterns.IntegerScan | references/process/merge/beliefs.py:148-149 | the matches `findall` and `subn` visit run left to right without overlapping, and consume no more than the string holds |
| Patterns.FindIntegers | references/process/merge/beliefs.py:148 | every string `re.findall(RE_INTEGER, value)` returns is a non-empty run of digits |
| Patterns.IntegerLeftoverLength | references/process/merge/beliefs.py:149 | the text `re.subn` leaves is no longer than the value |
| Patterns.FindLooseIntegers | reflink/process/merge/beliefs.py:68 | one non-empty run of digits per match of the older pattern |
| Patterns.LooseScanIsDigitRuns | reflink/process/merge/beliefs.py:68 | the older pattern captures exactly the maximal runs of digits of the string, in order |
| Patterns.DigitRunsMaximal | reflink/process/merge/beliefs.py:68 | each run so listed is maximal: digits throughout, and no digit on either side |
| Patterns.LooseScanNonEmptyIff | reflink/process/merge/beliefs.py:68-70 | the older pattern finds something exactly when the string holds a digit |
| Patterns.PagesMatch | references/process/merge/beliefs.py:184-185 | a page-range match captures two non-empty runs of digits |
| BeliefsLegacy.LegacyBloomMatch | reflink/process/merge/beliefs.py:52-56 | cleaned text with no words raises ZeroDivisionError, and only then. Otherwise the share of known words lies in [0, 1] |
| BeliefsLegacy.BloomMatchOnNoWords | reflink/process/merge/beliefs.py:52-56 | on text without words the current generation scores 0 where this one raises ZeroDivisionError |
| BeliefsLegacy.LegacyWords | reflink/process/merge/beliefs.py:134-140 | without filters the word check is `unity`. With filters a non-string raises AttributeError, and a string scores in [0, 1] |
| BeliefsLegacy.AnyNonZero | reflink/process/merge/beliefs.py:69 | the eagerly built list succeeds exactly when every element does, and then `any` is whether some score is non-zero. Otherwise the error is an element's |
| BeliefsLegacy.YearResultsOfRuns | reflink/process/merge/beliefs.py:74-81 | over digit runs `is_year` never raises, and it scores 1 exactly on the runs in the year range |
| BeliefsLegacy.DigitChecks | reflink/process/merge/beliefs.py:59-81 | a run of digits is an integer, and it is a year exactly when its value lies in range |
| BeliefsLegacy.LegacyIsIntegerLike | reflink/process/merge/beliefs.py:67-71 | a non-string makes `re.findall` raise TypeError; a string scores 1 when the loose pattern finds a number and 0 otherwise |
| BeliefsLegacy.LegacyIntegerLikeIffDigit | reflink/process/merge/beliefs.py:67-71 | a string scores 1 exactly when it holds a digit, and 0 otherwise |
| BeliefsLegacy.LegacyIsYearLike | reflink/process/merge/beliefs.py:84-88 | a non-string raises TypeError; a string scores 1 exactly when some found number lies strictly between 1600 and 2100, and 0 otherwise |
| BeliefsLegacy.LooseIntegersAreRuns | reflink/process/merge/beliefs.py:68 | every number the loose pattern finds is a maximal run of digits |
| BeliefsLegacy.RunsAreLooseIntegers | reflink/process/merge/beliefs.py:68 | every maximal run of digits is found by the loose pattern, in the same position |
| BeliefsLegacy.LegacyYearLikeIffRun | reflink/process/merge/beliefs.py:84-88 | a string is year-like exactly when one of its maximal digit runs lies strictly between 1600 and 2100 |
| BeliefsLegacy.GoodIdentifier | reflink/process/merge/beliefs.py:113-125 | an entry counts at most once, and an entry that is not an arXiv entry counts as in the current generation |
| BeliefsLegacy.CountGood | reflink/process/merge/beliefs.py:113-125 | no more identifiers are good than there are identifiers |
| BeliefsLegacy.LegacyValidIdentifier | reflink/process/merge/beliefs.py:109-127 | the share of good identifiers lies in [0, 1]. An empty list raises ZeroDivisionError, and a non-empty list succeeds exactly when every entry can be read |
| BeliefsLegacy.CountGoodWithoutArxiv | reflink/process/merge/beliefs.py:117-125 | without arXiv entries both generations count the same identifiers |
| BeliefsLegacy.ValidIdentifierWithoutArxiv | reflink/process/merge/beliefs.py:109-127 | without arXiv entries both generations give the same share |
| BeliefsLegacy.Apply | reflink/process/merge/beliefs.py:52-131 | every check that returns gives a score in [0, 1] |
| BeliefsLegacy.BeliefFunctions | reflink/process/merge/beliefs.py:142-153 | volume, issue and source map to the bare `unity` function rather than a list, and only they do; every list is non-empty |
| BeliefsLegacy.SumChecks | reflink/process/merge/beliefs.py:177 | the sum succeeds exactly when every check does, and lies between 0 and the number of checks |
| BeliefsLegacy.FieldBelief | reflink/process/merge/beliefs.py:176-177 | a bare entry is not iterable and raises TypeError for any value. A listed field succeeds exactly when each of its checks does, with a belief in [0, 1] |
| BeliefsLegacy.CalculateBelief | reflink/process/merge/beliefs.py:156-179 | the record succeeds exactly when every field's belief does, with the same keys in the same order, each holding that field's belief |
| BeliefsLegacy.BareFieldFailsRecord | reflink/process/merge/beliefs.py:147-150 | a record with a volume, issue or source field never gets beliefs |
| BeliefsLegacy.EmptyYearScoresZero | reflink/process/merge/beliefs.py:175-177 | an empty year scores 0 here, where the current generation gives every falsy value 1 |
| BeliefsLegacy.FieldBeliefZero | reflink/process/merge/beliefs.py:176-177 | a field whose checks sum to 0 has belief 0 |
| BeliefsLegacy.SumChecksZero | reflink/process/merge/beliefs.py:177 | checks that all score 0 sum to 0 |
| Normalize.RemoveDots | references/process/merge/normalize.py:15-17 | the result holds no dot |
| Normalize.DotsReplacedNoDot | references/process/merge/normalize.py:17 | a string without dots passes the substitution unchanged |
| Normalize.RemoveDotsIdempotent | references/process/merge/normalize.py:15-17 | removing dots twice gives the same string as removing them once |
| Normalize.DotlessTitle | references/process/merge/normalize.py:25-27 | a name part or source after dot removal and title-casing holds no dot |
| Normalize.TrimNonAlnum | references/process/merge/normalize.py:31-33 | the result is no longer than the input, and it starts and ends with an alphanumeric character unless it is empty |
| Normalize.TrimNonAlnumCharacterised | references/process/merge/normalize.py:31-33 | if the input is a non-alphanumeric run, then a core that starts and ends alphanumeric, then another non-alphanumeric run, the trim returns exactly that core |
| Normalize.TrimNonAlnumIdempotent | references/process/merge/normalize.py:31-33 | trimming twice gives the same string as trimming once |
| Normalize.FirstArchive | references/process/merge/normalize.py:40-42 | the archive found is the first whose hyphen-less spelling occurs in the value; none is found only when no spelling occurs |
| Normalize.FixArxivId | references/process/merge/normalize.py:36-44 | with no archive spelling present the value is unchanged. Otherwise every occurrence of the first found archive's hyphen-less spelling is replaced by the archive |
| Normalize.HyphenlessArchiveStops | references/process/merge/normalize.py:40-43 | an archive without a hyphen that is found first replaces itself by itself, so the value comes back unchanged and no later archive is tried |
| Normalize.MathPhTypo | references/process/merge/normalize.py:40-43 | with `math` listed before `math-ph`, the written fix leaves the typo `mathph/01` as it is, while the corrected fix restores `math-ph/01` |
| Normalize.FirstTypo | references/process/merge/normalize.py:40-42 | the corrected search finds the first archive that has a hyphen and whose hyphen-less spelling occurs; it finds none only when there is no such archive |
| Normalize.FixArxivTypo | references/process/merge/normalize.py:36-44 | the corrected fix leaves a value without typos unchanged, and otherwise restores the hyphen of the first hyphenated archive whose typo occurs |
| Normalize.FixArxivTypoAgrees | references/process/merge/normalize.py:40-44 | when the first archive found has a hyphen, or no archive is found, the corrected fix and the written fix agree |
| Normalize.FixFirstPass | references/process/merge/normalize.py:40-43 | with archives `a-b` and `c-d`, one pass over `ab cd` restores only `a-b` |
| Normalize.FixSecondPass | references/process/merge/normalize.py:40-43 | a second pass over `a-b cd` restores `c-d` |
| Normalize.FixArxivIdNotIdempotent | references/process/merge/normalize.py:36-44 | because the search stops at the first archive, fixing twice can differ from fixing once |
| Normalize.FixArxivValue | references/process/merge/normalize.py:36-44 | a string is fixed, and a list is fixed element by element, keeping its length. Without archives to search nothing fails |
| Normalize.NormalizeNamePart | references/process/merge/normalize.py:22-27 | a None part is left alone, and a string part is replaced by its dotless title form. The author keeps its keys |
| Normalize.NormalizeAuthor | references/process/merge/normalize.py:20-28 | an author that is not a dict has no `.get` and raises AttributeError. A dict author keeps its keys |
| Normalize.Normalizer | references/process/merge/normalize.py:47-52 | the title is trimmed, and the source loses its dots and is title-cased; either of them raises TypeError on a non-string. Authors get the name fix and `arxiv_id` the archive fix |
| Normalize.NormalizeEach | references/process/merge/normalize.py:71-72 | a list value is normalised element by element. It fails exactly when some element fails, and otherwise keeps its length |
| Normalize.NormalizeField | references/process/merge/normalize.py:68-74 | None is skipped, a list is normalised per element, and any other value goes to the normaliser |
| Normalize.NormalizeRecord | references/process/merge/normalize.py:55-75 | fields other than the four normalised ones are left untouched |
| Normalize.NormalizeRecordSteps | references/process/merge/normalize.py:67-75 | the fields are normalised in the order authors, title, source, `arxiv_id`. The first failure is what the record raises; otherwise the record carries the four normalised values |
| Normalize.NormalizeRecordFields | references/process/merge/normalize.py:55-75 | a record normalises exactly when each of its four fields does, and then holds each field's normalised value |
| Normalize.NormalizeRecords | references/process/merge/normalize.py:78-91 | the list succeeds exactly when every record does. It keeps length and order, and holds each record's normalised form |
| Normalize.Retained | references/process/merge/normalize.py:115-118 | the kept indices are increasing, and they are exactly the records whose score reaches the threshold |
| Normalize.Scored | references/process/merge/normalize.py:116 | every record gets its own score, and no other field changes |
| Normalize.FilterRecords | references/process/merge/normalize.py:94-123 | every record is scored. The kept records are those at or above the threshold, in order. With none kept the composite is 0, and otherwise it is the mean of the kept scores |
| Normalize.CompositeBounds | references/process/merge/normalize.py:119-123 | the composite lies within any bounds on the kept scores, and it is never below the threshold |
| Normalize.RetainedMonotone | references/process/merge/normalize.py:117 | raising the threshold never keeps more records |
| Normalize.KeptOfThree | references/process/merge/normalize.py:114-120 | of three records scored 0.1, 0.4 and 0.9, the number kept is the number at or above the threshold |
| Normalize.FilterThresholds | references/process/merge/normalize.py:114-120 | thresholds 0.1, 0.2, 0.4, 0.5, 0.9 and 1.0 keep 3, 2, 2, 1, 1 and 0 of those records |
| NormalizeLegacy.WithScoreGet | reflink/process/merge/normalize.py:27-28 | the copied dict gains `score` holding the record's score, and every other key keeps its value |
| NormalizeLegacy.SurvivorsRetained | reflink/process/merge/normalize.py:27-29 | the surviving records are copies, in order, of exactly the records whose score reaches the threshold |
| NormalizeLegacy.FilterRecordsKeeps | reflink/process/merge/normalize.py:9-33 | the kept dicts are the records at or above the threshold, each with its score added. With none kept the answer is an empty list and 0; otherwise the composite is the mean of the kept scores |
| NormalizeLegacy.KeptCarriesScore | reflink/process/merge/normalize.py:27-29 | each kept dict carries its own score under `score` and the record's other keys unchanged |
| NormalizeLegacy.AgreesWithCurrent | reflink/process/merge/normalize.py:9-33 | given the same scores, the dict-based filter keeps as many records and gives the same composite as the filter over `Reference` instances |
| Merge.Failure | references/process/merge/__init__.py:56-77 | a stage failure is re-raised as RuntimeError whose message is the stage name, ` failed: ` and the cause's text |
| Merge.TryMapValues | references/process/merge/__init__.py:54-55 | the dict comprehension keeps the extractor keys in order and maps each value. It fails exactly when some value fails, and then with the first failure |
| Merge.TryMapValuesFirstError | references/process/merge/__init__.py:54-55 | one failing extraction makes normalisation fail, with the error of that extraction or of an earlier failing one |
| Merge.PipelineStages | references/process/merge/__init__.py:53-78 | the stages run at most once each, in order, and the merge succeeds exactly when all of them ran |
| Merge.StageOrder | references/process/merge/__init__.py:53-78 | the same stage discipline for `merge_records` itself |
| Merge.PipelineNormalization | references/process/merge/__init__.py:54-55 | a normalisation error propagates unwrapped, before any stage runs |
| Merge.PipelineAlignment | references/process/merge/__init__.py:56-59 | an alignment error becomes `RuntimeError('Alignment failed: …')` |
| Merge.PipelineArbitration | references/process/merge/__init__.py:66-72 | an arbitration error becomes `RuntimeError('Arbitration failed: …')` |
| Merge.PipelineSuccess | references/process/merge/__init__.py:53-78 | a successful merge means every stage succeeded, and the answer is the filter applied to the arbitrated records |
| Merge.NormalizationFirst | references/process/merge/__init__.py:54-57 | a record list that fails normalisation fails the merge before alignment, whatever the aligner, with the error of the first failing list at or before it |
| Merge.AlignerSeesNormalized | references/process/merge/__init__.py:54-57 | the aligner sees only the normalised records, under the same extractor keys: two aligners that agree there give the same merge |
| Merge.AlignmentFailure | references/process/merge/__init__.py:56-59 | with `merge_records`' own stages, an alignment failure gives the wrapped alignment error |
| Merge.ArbitrationFailure | references/process/merge/__init__.py:61-72 | an `arbitrate_all` failure, on the validated probabilities and the given priors, gives the wrapped arbitration error |
| Merge.SuccessIsFiltered | references/process/merge/__init__.py:61-78 | a successful merge returns the kept records and the composite score of filtering the arbitrated records at threshold 0.5 |
| Merge.BeliefNonNegative | references/process/merge/__init__.py:62 | the belief of any reference is non-negative in every field |
| Merge.ValidatedNonNegative | references/process/merge/__init__.py:62 | every validity probability produced for the aligned records is non-negative |
| Merge.ArbitratedWithin | references/process/merge/__init__.py:66-70 | with non-negative priors, every arbitrated record scores in [0, 1] |
| Merge.FilterWithin | references/process/merge/__init__.py:74-75 | filtering scores in [0, 1] gives a composite in [0, 1], and at least the threshold when a record is kept |
| Merge.CompositeWithin | references/process/merge/__init__.py:25-78 | with non-negative priors, the composite score of a successful merge lies in [0, 1], and is at least 0.5 when a record is kept |
| ExtractedReferences.AuthorTerm | references/controllers/extracted_references.py:30-41 | an author without `.get` raises AttributeError. With a surname the term is `"forename surname"`, quoted, or the bare surname without a forename; otherwise the full name; with neither there is no term |
| ExtractedReferences.AuthorParts | references/controllers/extracted_references.py:29-41 | a list of authors succeeds exactly when every author is a dict. It yields one `as_sauthors` part per contributing author, never more parts than authors |
| ExtractedReferences.AuthorsParts | references/controllers/extracted_references.py:29-30 | falsy authors add nothing and a list is walked. A truthy string or dict iterates into values without `.get` (AttributeError); any other truthy value is not iterable (TypeError) |
| ExtractedReferences.Part | references/controllers/extracted_references.py:27-28 | a truthy value adds one `(key, str(value))` part, and a falsy one adds none |
| ExtractedReferences.QueryParts | references/controllers/extracted_references.py:20-46 | building the query fails exactly when the authors fail, and with their error |
| ExtractedReferences.QueryPartsOf | references/controllers/extracted_references.py:22-46 | the parts come in the order title, authors, source, then year twice |
| ExtractedReferences.QueryPartsShape | references/controllers/extracted_references.py:22-46 | `as_q`, `as_publication`, `as_ylo` and `as_yhi` each occur once when their field is truthy and never otherwise. The title comes first, and the year closes the query as `as_ylo` then `as_yhi` |
| ExtractedReferences.CountPart | references/controllers/extracted_references.py:27-28 | a part adds one occurrence of its key exactly when its value is truthy |
| ExtractedReferences.AuthorsPartsKeys | references/controllers/extracted_references.py:29-41 | the author parts all carry the key `as_sauthors` |
| ExtractedReferences.GsQuery | references/controllers/extracted_references.py:20-47 | `_gs_query` url-encodes the parts, and fails exactly when building them fails |
| ExtractedReferences.Assignment | references/controllers/extracted_references.py:57-58 | a non-dict entry raises TypeError. A missing `identifier` raises KeyError first, then a missing type key. A string type assigns the entry's identifier to that type |
| ExtractedReferences.Absorb | references/controllers/extracted_references.py:56-58 | the loop over the identifiers succeeds exactly when every entry can be assigned |
| ExtractedReferences.AbsorbFirstFailure | references/controllers/extracted_references.py:57-58 | a failing loop raises the error of its first failing entry |
| ExtractedReferences.AbsorbGet | references/controllers/extracted_references.py:51-58 | after the loop each key holds the last value assigned to it, or its seed, and the keys stay distinct |
| ExtractedReferences.KeepTruthy | references/controllers/extracted_references.py:59 | the comprehension keeps only entries of the dict, and only those with truthy values |
| ExtractedReferences.KeepTruthyGet | references/controllers/extracted_references.py:59 | a key survives exactly when its value is truthy, and keeps that value |
| ExtractedReferences.GetIdentifiersWith | references/controllers/extracted_references.py:50-59 | every value returned is truthy. A truthy `identifiers` that is not a list raises TypeError |
| ExtractedReferences.GetIdentifiers | references/controllers/extracted_references.py:50-59 | the function as written, reading `identifier_type`, with the same guarantees |
| ExtractedReferences.GetIdentifiersGet | references/controllers/extracted_references.py:50-59 | it succeeds exactly when the identifiers are falsy or a list whose every entry can be assigned. It then holds a key exactly when that key's final value is truthy: the last assignment, else the `doi`/`title` seed |
| ExtractedReferences.Resolve | references/controllers/extracted_references.py:62-98 | a raised error passes through, and a non-200 status keeps its status with the no-data explanation. A 200 answer becomes a 303 redirect or a 404 |
| ExtractedReferences.ResolvePriority | references/controllers/extracted_references.py:81-97 | the redirect goes to arXiv if that identifier is truthy, else to DOI, else to ISBN, else to a Scholar search when a title is known, and otherwise the answer is 404 with an explanation |
| ExtractedReferences.FirstWithIdentifier | references/controllers/extracted_references.py:130-131 | the index found is the first reference with that identifier, and none is found only when no reference has it |
| ExtractedReferences.GetReference | references/controllers/extracted_references.py:101-135 | a store communication error is a 500 and a missing document a 404. Otherwise the first reference with the id is returned as a dict with 200, or a 404 when there is none |
| ExtractedReferences.GetReferenceStatus | references/controllers/extracted_references.py:135 | a successful `get` always answers 200 |
| ExtractedReferences.ResolveAfterGet | references/controllers/extracted_references.py:76-98 | resolving what `get` answered is a 303 or a 404, or an error |
| ExtractedReferences.ResolveFromOk | references/controllers/extracted_references.py:76-98 | resolving a 200 answer gives a 303 or a 404 |
| ExtractedReferences.StoredIdentifiersRaise | references/controllers/extracted_references.py:55-58 | a stored reference whose first identifier is an `Identifier` fails with KeyError('identifier_type'), because `to_dict` spells the key `identifer_type` |
| ExtractedReferences.StoredIdentifiers | references/controllers/extracted_references.py:135 | `get` hands `resolve` the reference's identifiers in dict form under `identifiers` |
| ExtractedReferences.IdentifierDictRaises | references/controllers/extracted_references.py:58 | the dict form of an `Identifier` lacks `identifier_type`, so the loop raises KeyError on it |
| ExtractedReferences.AbsorbFirstRaises | references/controllers/extracted_references.py:57-58 | the loop raises the error of its first entry when that entry fails |
| ExtractedReferences.IntendedGetIdentifiers | references/controllers/extracted_references.py:50-59 | the corrected function reads the type under the stored spelling. Its values are all truthy, and without truthy identifiers it agrees with the written one |
| ExtractedReferences.StoredAssignment | references/controllers/extracted_references.py:58 | under the stored spelling, the dict form of an `Identifier` assigns its id to its type |
| ExtractedReferences.StoredAssigned | references/controllers/extracted_references.py:56-58 | over the dict forms of `Identifier`s, the last assignment to a type is the id of the last identifier of that type |
| ExtractedReferences.IntendedStoredIdentifiers | references/controllers/extracted_references.py:50-59 | with the corrected reading, any stored reference whose identifiers are `Identifier`s resolves them: each type holds the id of its last identifier, `doi` and `title` keep their own values unless overridden, and empty values are dropped |
| ExtractedReferencesExamples.IdentAssigns | references/controllers/tests/test_controller_references.py:31-34 | a test entry with `identifier_type` and `identifier` assigns its id to its type |
| ExtractedReferencesExamples.AbsorbOne | references/controllers/extracted_references.py:57-58 | one identifier of a new type is appended |
| ExtractedReferencesExamples.AbsorbTwo | references/controllers/extracted_references.py:57-58 | two identifiers of new, different types are appended in order |
| ExtractedReferencesExamples.IdentifiersOfList | references/controllers/extracted_references.py:55-59 | a non-empty identifiers list that can be absorbed gives the truthy part of the absorbed dict |
| ExtractedReferencesExamples.OneIdentifier | references/controllers/extracted_references.py:50-59 | one identifier of a new type joins `doi` and `title` |
| ExtractedReferencesExamples.TwoIdentifiers | references/controllers/extracted_references.py:50-59 | two identifiers of new types join `doi` and `title`, in order |
| ExtractedReferencesExamples.ResolveTo | references/controllers/extracted_references.py:84-91 | an identifier of the preferred kind, with no preferred one before it, gives a 303 to that kind's URL with the id appended |
| ExtractedReferencesExamples.ResolveToSearch | references/controllers/extracted_references.py:92-94 | identifiers holding only a title give a 303 to the Scholar search on the record's query |
| ExtractedReferencesExamples.ResolveWithArxiv | references/controllers/tests/test_controller_references.py:28-44 | a record with arXiv and ISBN identifiers and a DOI redirects to arxiv.org/abs with the arXiv id |
| ExtractedReferencesExamples.ResolveWithDoi | references/controllers/tests/test_controller_references.py:46-60 | a record with an ISBN identifier and a DOI redirects to dx.doi.org with the DOI |
| ExtractedReferencesExamples.ResolveWithIsbn | references/controllers/tests/test_controller_references.py:62-76 | a record with only an ISBN identifier redirects to worldcat with the ISBN |
| ExtractedReferencesExamples.AuthorQuoted | references/controllers/extracted_references.py:34-37 | an author with a forename and a surname gives the quoted term `"forename surname"` |
| ExtractedReferencesExamples.OneAuthor | references/controllers/extracted_references.py:29-41 | a one-author list gives exactly that author's `as_sauthors` part |
| ExtractedReferencesExamples.DescribedQuery | references/controllers/tests/test_controller_references.py:79-97 | a record with title, year, source and one author gives the parts `as_q`, `as_sauthors`, `as_publication`, `as_ylo` and `as_yhi` with those values |
| ExtractedReferencesExamples.DescribedIdentifiers | references/controllers/extracted_references.py:50-59 | a record without identifiers or DOI keeps only its title as an identifier |
| ExtractedReferencesExamples.ResolveWithMeta | references/controllers/tests/test_controller_references.py:79-97 | such a record redirects to the Scholar search with those parts |
| Refextract.StartGet | references/services/refextract/parse.py:39 | the keywords start as `{'reftype': 'citation'}` |
| Refextract.Subscript0 | references/services/refextract/parse.py:43 | `value[0]` of a non-empty list is its first element, and of a non-empty string its first character. Any other value raises |
| Refextract.MapOne | references/services/refextract/parse.py:41-43 | a falsy input value leaves the keywords alone. A truthy one sets the target field to its first element, and fails exactly when it has none |
| Refextract.MapOneGet | references/services/refextract/parse.py:41-43 | one mapping changes only its own target key |
| Refextract.MappedSucceeds | references/services/refextract/parse.py:40-43 | the mapping loop fails exactly when some truthy input value has no first element |
| Refextract.MappedKeys | references/services/refextract/parse.py:39-43 | every key after the loop was there before or is a mapping target |
| Refextract.MappedAt | references/services/refextract/parse.py:40-43 | with distinct targets, each target holds the first element of its truthy input value, and is otherwise left as it was |
| Refextract.MappedElsewhere | references/services/refextract/parse.py:40-43 | a key that no mapping targets is left as it was |
| Refextract.FullnameAuthor | references/services/refextract/parse.py:51 | a string author becomes an `Author` with only a full name |
| Refextract.FullnameAuthors | references/services/refextract/parse.py:50-53 | the authors list keeps its length and order |
| Refextract.WithIdentifiers | references/services/refextract/parse.py:44-48 | without an `identifiers` input key nothing changes. With one, the loop reads `identifiers` from the keywords built so far and raises KeyError when they lack it |
| Refextract.IdentifierObjects | references/services/refextract/parse.py:45-48 | the identifier objects keep the length of the list |
| Refextract.WithAuthors | references/services/refextract/parse.py:49-53 | with an `author` key, authors are set to the full-name authors, and the step fails exactly when the value is not iterable. Without one nothing changes |
| Refextract.IdentifierObject | references/services/refextract/parse.py:46 | `Identifier(**ident)` needs a mapping, and succeeds exactly when its keywords build an identifier |
| Refextract.MappingTargets | references/services/refextract/parse.py:14-23 | the eight mappings have distinct targets, none of them `reftype`, `authors`, `identifiers` or `identifier`, and `raw_ref` maps to `raw` |
| Refextract.MappedUntouched | references/services/refextract/parse.py:39-43 | the loop keeps `reftype` as `citation` and never sets `authors` or `identifiers` |
| Refextract.MappedNoIdentifiers | references/services/refextract/parse.py:40-43 | the mapped keywords never hold `identifiers` |
| Refextract.KeywordsRaise | references/services/refextract/parse.py:44-48 | any input with an `identifiers` key makes building the keywords raise KeyError('identifiers') |
| Refextract.IdentifiersRaiseWith | references/services/refextract/parse.py:44-48 | the same for `transform`, with any sound mapping list |
| Refextract.KeywordIsField | references/services/refextract/parse.py:39-43 | every key the loop can produce is a reference field |
| Refextract.KeywordsShape | references/services/refextract/parse.py:39-53 | without identifiers, the keywords are the mapped fields with the authors step applied |
| Refextract.KeywordsAreFields | references/services/refextract/parse.py:39-54 | without identifiers, every keyword names a reference field, so `Reference(**metadatum)` never sees an unknown keyword |
| Refextract.KeywordGet | references/services/refextract/parse.py:39-53 | `authors` is the full-name list when the input has authors; every other key is what the mapping loop left |
| Refextract.TransformSucceedsWith | references/services/refextract/parse.py:26-54 | `transform` succeeds exactly when the mapping loop succeeds, there is no `identifiers` key, the authors are iterable, and `raw` is a string |
| Refextract.TransformSucceedsMapped | references/services/refextract/parse.py:49-54 | once the loop succeeded and there are no identifiers, success needs only iterable authors and a string `raw` |
| Refextract.TransformKeywords | references/services/refextract/parse.py:26-54 | a successful `transform` saw no identifiers and built its keywords |
| Refextract.BuiltField | references/services/refextract/parse.py:54 | each field of the built reference is its keyword, or its default when absent |
| Refextract.TransformReftypeWith | references/services/refextract/parse.py:39 | every reference built has reftype `citation` |
| Refextract.TransformFieldWith | references/services/refextract/parse.py:40-43 | each mapped field holds the first element of its truthy input value, or the field default |
| Refextract.TransformAuthorsWith | references/services/refextract/parse.py:49-53 | the reference's authors are the full-name list when the input has authors, and empty otherwise |
| Refextract.KeywordsReftype | references/services/refextract/parse.py:39 | the keywords keep `reftype` from the start |
| Refextract.MappedField | references/services/refextract/parse.py:40-43 | with the real mappings, each target holds the first element of its truthy value, and is absent otherwise |
| Refextract.KeywordsField | references/services/refextract/parse.py:40-53 | the authors step leaves the mapped fields as they are |
| Refextract.KeywordsAuthors | references/services/refextract/parse.py:49-53 | the `authors` keyword is present exactly when the input has `author` |
| Refextract.IdentifiersRaise | references/services/refextract/parse.py:44-48 | with the real mappings, an input carrying `identifiers` makes `transform` raise KeyError('identifiers') |
| Refextract.MappedRaw | references/services/refextract/parse.py:17-43 | `raw` is the first `raw_ref` element when that list is truthy, and the empty default otherwise |
| Refextract.TransformSucceeds | references/services/refextract/parse.py:26-54 | with the real mappings, `transform` succeeds exactly when: every truthy input value has a first element; there is no `identifiers` key; `author`, if present, is iterable; and a truthy `raw_ref` starts with a string |
| Refextract.TransformReftype | references/services/refextract/parse.py:39 | every transformed reference has reftype `citation` |
| Refextract.TransformField | references/services/refextract/parse.py:40-43 | each of the eight mapped fields holds the first element of its truthy refextract value, or the default |
| Refextract.TransformAuthors | references/services/refextract/parse.py:49-53 | the authors are the refextract author strings as full-name authors, or empty |
| Refextract.IntendedWithIdentifiers | references/services/refextract/parse.py:44-48 | the corrected step reads the refextract record's own `identifiers`. Without them nothing changes; when it succeeds, the keywords carry the built identifier objects |
| Refextract.IntendedKeywords | references/services/refextract/parse.py:39-53 | the corrected keywords agree with the written ones when the input has no identifiers |
| Refextract.IntendedTransform | references/services/refextract/parse.py:26-54 | the corrected `transform` agrees with the written one when the input has no identifiers |
| Refextract.IntendedKeywordsIdentifiers | references/services/refextract/parse.py:44-53 | the authors step leaves the corrected identifiers in place |
| Refextract.IntendedTransformIdentifiers | references/services/refextract/parse.py:44-48 | when the corrected `transform` succeeds on an input with identifiers, the reference holds one `Identifier` per input entry, in order, while the written `transform` raises KeyError |
| Scienceparse.ParseAuthLine | references/services/scienceparse/parse.py:15-22 | the last name holds no space. Given a space, first name, a space and last name rebuild the line; without one, the whole line is the last name and the first name is empty |
| Scienceparse.ParseAuthLineLastSpace | references/services/scienceparse/parse.py:20-22 | the line splits at its last space |
| Scienceparse.ParseAuthor | references/services/scienceparse/parse.py:47-51 | only a string author can be split (anything else has no `split`: AttributeError). It becomes an `Author` whose given names are the first part and whose surname is the last |
| Scienceparse.TruthyFromMembers | references/services/scienceparse/parse.py:47-49 | the authors kept are exactly the truthy ones |
| Scienceparse.TruthyFromAll | references/services/scienceparse/parse.py:47-49 | when every author is truthy, all are kept, in order |
| Scienceparse.AuthorsFromFiltered | references/services/scienceparse/parse.py:46-51 | the author loop is the falsy filter followed by the split of each survivor |
| Scienceparse.AuthorsOutcome | references/services/scienceparse/parse.py:46-51 | the authors are built exactly when every truthy author is a string. Then there is one `Author` per truthy author, in order |
| Scienceparse.AuthorsAllFalsy | references/services/scienceparse/parse.py:47-49 | falsy authors give an empty list |
| Scienceparse.FourGet | references/services/scienceparse/parse.py:52-57 | the keywords are exactly title, year, source and authors, holding the given values |
| Scienceparse.FourKeys | references/services/scienceparse/parse.py:52-57 | the keywords come in the order title, year, source, authors |
| Scienceparse.FourBuild | references/services/scienceparse/parse.py:52-57 | those four keywords always build a reference |
| Scienceparse.FourFields | references/services/scienceparse/parse.py:52-57 | the built reference holds the four values, the empty raw string and its identifier, and the default reftype |
| Scienceparse.FourDefault | references/services/scienceparse/parse.py:52-57 | every other field takes its default |
| Scienceparse.FormatOneSucceeds | references/services/scienceparse/parse.py:45-57 | one entry converts exactly when it is a dict whose `authors`, default empty, are iterable and whose truthy authors are all strings |
| Scienceparse.FormatOneFields | references/services/scienceparse/parse.py:52-57 | the reference's title is the entry's `title` and its source the `venue`. Its year is `str` of the entry's year, so `"None"` when absent. Raw is empty, and the authors are the split truthy authors |
| Scienceparse.FormatOneReftype | references/services/scienceparse/parse.py:52-57 | the reftype is the default |
| Scienceparse.FormatScienceParseOutput | references/services/scienceparse/parse.py:25-60 | output without `references` raises KeyError with the fixed message. Otherwise it succeeds exactly when every entry converts, giving one reference per entry in order, and fails with the first failing entry's error |
| Scienceparse.FourPassed | references/services/scienceparse/parse.py:52-57 | each of the four keywords reaches the reference's field of that name unchanged |
| Scienceparse.FourTitle | references/services/scienceparse/parse.py:53 | the title keyword becomes the reference's title |
| Scienceparse.FourYear | references/services/scienceparse/parse.py:54 | the year keyword becomes the reference's year |
| Scienceparse.FourSource | references/services/scienceparse/parse.py:55 | the venue passed as `source` becomes the reference's source |
| Scienceparse.FourAuthors | references/services/scienceparse/parse.py:56 | the authors keyword becomes the reference's authors |
| Scienceparse.FourRaw | references/services/scienceparse/parse.py:52-57 | no raw string is passed, so raw is empty and the identifier is the one derived from the empty string |
| Scienceparse.FourReftype | references/services/scienceparse/parse.py:52-57 | no reftype is passed, so the reference carries the default reftype |
| Scienceparse.FormatOneBuilds | references/services/scienceparse/parse.py:45-57 | a converted entry was a dict with iterable authors, and its reference is the one built from its keywords and parsed authors |
| Clean.InnerClean | references/services/data_store/util.py:20-25 | a value that is neither a dict nor a list comes back unchanged. A dict stays a dict with no more entries, and a list stays a list with one element per truthy element |
| Clean.CleanItems | references/services/data_store/util.py:24 | a list keeps one (cleaned) element per truthy element |
| Clean.CleanEntries | references/services/data_store/util.py:22 | a cleaned dict only keeps keys it had |
| Clean.Clean | references/services/data_store/util.py:16-28 | `None` maps to `None` and a dict to a dict, and no key is invented |
| Clean.CleanEntriesGet | references/services/data_store/util.py:22 | in a cleaned dict, a key holds the cleaned value when its value was truthy, and is absent when the value was falsy or the key was missing |
| Clean.CleanGet | references/services/data_store/util.py:27-28 | a top-level field survives exactly when its value is truthy, and then holds that value cleaned |
| Clean.CleanItemsAppend | references/services/data_store/util.py:24 | cleaning a list distributes over concatenation |
| Clean.CleanItemsOne | references/services/data_store/util.py:24 | a one-element list keeps its cleaned element exactly when that element is truthy |
| Clean.CleanNotIdempotent | references/services/data_store/util.py:20-28 | filtering happens before the inner clean, so a dict emptied by cleaning is kept once and dropped on a second pass: `clean` is not idempotent |
| Extract.Names | references/process/extract/__init__.py:73 | one name per extractor, in list order |
| Extract.DefaultExtractors | references/process/extract/__init__.py:19-29 | the default extractors are cermine, grobid, refextract and scienceparse, in that order, each bound to its own service's call |
| Extract.CollectedKeys | references/process/extract/__init__.py:72-81 | the extractions hold a name exactly when some extractor of that name returned. A raising extractor leaves no trace |
| Extract.CollectedGet | references/process/extract/__init__.py:72-81 | with distinct names, each extractor's entry is its own output when it returned and absent when it raised |
| Extract.ExtractAll | references/process/extract/__init__.py:51-81 | every extractor is called once, in list order. The result holds exactly the names of the extractors that returned, each with its output |
| Extract.TruthyEntries | references/process/extract/__init__.py:46 | the entries kept are exactly the entries with a truthy value |
| Extract.Scores | references/process/extract/__init__.py:45-47 | one score per record, in order |
| Extract.MaxScore | references/process/extract/__init__.py:45-47 | an upper bound on every record's score, never negative |
| Extract.EstimateQuality | references/process/extract/__init__.py:32-48 | an empty list raises StatisticsError (no mean). Otherwise the estimate is never negative |
| Extract.QualityBounds | references/process/extract/__init__.py:45-48 | records of at most ten fields give an estimate of at most 1. Records that all have c truthy fields give exactly c/10 |
| Extraction.VersionAtLeast | references/controllers/extraction.py:47 | comparing a stored version with the current one succeeds exactly for numbers (and booleans). Anything else, `None` included, raises TypeError; a float compares by value |
| Extraction.Extract | references/controllers/extraction.py:34-59 | a missing or non-string document id gives 400 DOCUMENT_ID_MISSING, and a missing or invalid URL gives 400 FILE_MISSING_OR_INVALID, neither starting a job. A stored extraction at least as recent gives 303 to the references. Otherwise exactly one processing job for (id, url) is started and 202 points at its task status |
| Extraction.ExtractOutcomes | references/controllers/extraction.py:34-59 | the only statuses are 400, 303 and 202. The request raises exactly when the stored extraction's version cannot be compared |
| Extraction.Status | references/controllers/extraction.py:62-85 | a non-string task id raises ValueError. PENDING and unknown states give 404 TASK_DOES_NOT_EXIST, and SENT/STARTED/RETRY give 200 in progress. FAILURE gives 200 with this task's own failure reason, and SUCCESS gives 303 to the result's document, raising when the result is not a dict |
| Extraction.StatusAsWritten | references/controllers/extraction.py:74-78 | a FAILURE answer returns the shared module-level `TASK_FAILED` dict after writing this task's reason into it. Every other answer leaves that dict as it was |
| Extraction.SetReason | references/controllers/extraction.py:76-77 | updating any reachable state of the shared dict with a reason gives the failure body for that reason |
| Extraction.StatusAgrees | references/controllers/extraction.py:62-85 | apart from the shared dict, the code as written answers like `Status`. Rendered at the time of the call, each answer equals `Status`'s |
| Extraction.FailureLeaks | references/controllers/extraction.py:19-78 | two failed tasks queried one after the other: the first answer, when serialised after the second call, carries the second task's reason, and the shared `TASK_FAILED` is left modified |
| Consumer.ShouldUpdateSequence | reflink/notification/consumer.py:82-94 | with nothing recorded, any record updates. The corrected reading short-circuits the `(None, None)` test and otherwise asks for a strictly larger (sequence, sub-sequence) pair |
| Consumer.SequenceOrder | reflink/notification/consumer.py:87-94 | between recorded positions the test is a strict total order: irreflexive, exactly one of two distinct positions lies beyond the other, and transitive |
| Consumer.ShouldUpdateAsWritten | reflink/notification/consumer.py:87-94 | `any([...])` builds its list eagerly, so with nothing recorded `sequence_number > None` raises TypeError. Once a position is recorded, the answer is the intended one |
| Consumer.ShouldUpdateRaisesWhenUnset | reflink/notification/consumer.py:87-94 | on a fresh processor the intended test says update, while the code as written raises TypeError |
| Consumer.Track | reflink/notification/consumer.py:105-112 | an empty batch leaves the recorded position as it was and raises nothing |
| Consumer.ParsesCons | reflink/notification/consumer.py:105-107 | every record's sequence number parses exactly when the first one's does and all the rest do |
| Consumer.TrackFinishes | reflink/notification/consumer.py:104-112 | with the corrected test, the record loop completes without an exception exactly when every sequence number is decimal text |
| Consumer.TrackStep | reflink/notification/consumer.py:105-112 | a record whose sequence number parses advances the position and the loop continues with the rest |
| Consumer.AdvanceCovers | reflink/notification/consumer.py:111-112 | one update keeps every position already covered, covers the new record, and either keeps the old position or takes the record's |
| Consumer.TrackMaximum | reflink/notification/consumer.py:104-112 | after a batch that parses, the recorded position is the maximum of the old one and every record's position, and is one of them |
| Consumer.TrackAsWrittenStalls | reflink/notification/consumer.py:87-112 | as written, a fresh processor raises on its first record, so its position is never set and every batch ends in an exception |
| Consumer.Initialize | reflink/notification/consumer.py:31-36 | initialising clears the recorded position and starts the checkpoint timer at the current time |
| Consumer.TimerPosition | reflink/notification/consumer.py:115-117 | the checkpoint position is `str` of the sequence number and the sub-sequence number, so `("None", None)` while nothing is recorded |
| Consumer.TimerPositionRoundTrip | reflink/notification/consumer.py:107-117 | a recorded sequence number survives the `str` and parses back to itself, and the sub-sequence is passed unchanged |
| Consumer.ProcessRecords | reflink/notification/consumer.py:96-122 | the position after a batch is the record loop's. A checkpoint is requested exactly when the loop raised nothing, the timer was started, and more than sixty seconds have passed. It then targets the recorded position and restarts the timer; otherwise the timer is untouched, and an exception is swallowed |
| Consumer.AsWrittenNeverAdvances | reflink/notification/consumer.py:87-122 | as written, a fresh processor given any non-empty batch keeps its state and never checkpoints |
| Consumer.ShortCircuitAdvances | reflink/notification/consumer.py:87-122 | with the corrected test, a fresh processor given a batch that parses records a position covering every record |
| Consumer.Checkpoint | reflink/notification/consumer.py:38-71 | at most five attempts, all at the given position. Every attempt before the last asked for a retry, and the last succeeded, met a shutdown, was throttled on the fifth try, or was the fifth. A shutdown on the first attempt means a single call, and every attempt that does not end the loop is followed by a sleep |
| Consumer.HandleRecords | reflink/notification/consumer.py:96-122 | the processor's new state is `ProcessRecords`'s. Checkpointer calls happen exactly when it asks for a checkpoint, at most five, all at the recorded position |
| Consumer.Shutdown | reflink/notification/consumer.py:124-145 | `TERMINATE` runs one checkpoint with no position, making one to five calls. Any other reason makes no call |

## Left out

- Arbitrate.Cast: `eval` of pooled text is modelled only for the `str` of a list or a dict, which it rebuilds. Text that never was a container is kept as it is. Python would raise NameError for a bare name such as `"Smith"`, and `list(eval("1999"))` would raise TypeError; the model does not follow either.
- Text.ParseInt: `int()` accepts an optional sign, surrounding whitespace and ASCII digits only. Python also accepts underscores between digits and Unicode decimal digits, and those inputs are not modelled.
- Normalize.DotlessTitle: `str.title()` is modelled by `Text.Title`, which treats only the ASCII letters as cased. Python's `str.title()` cases every Unicode letter, so a name part or source holding a non-ASCII letter is title-cased differently: `"Émile"` gives `"ÉMile"` in the model where Python keeps `"Émile"`.
- Normalize.NormalizeNamePart: the dotless title form of a given name or full name inherits that ASCII-only casing, so a name with a non-ASCII letter is normalised differently from Python.
- Normalize.Normalizer: the title-cased source inherits the same ASCII-only casing: `"über physik"` gives `"üBer Physik"` in the model where Python gives `"Über Physik"`.
- Patterns.IntegerMatchAt: `\d` is modelled as `[0-9]`. In a `str` pattern Python's `\d` also matches every other Unicode decimal digit (the full-width `"２０１１"`, say), so `is_integer_like`, `is_year_like`, `is_pages` and their older versions score such strings differently. The same restriction holds for `Patterns.FindIntegers`, `Patterns.IntegerScan` and `Patterns.PagesMatch`.
- Patterns.LooseScanIsDigitRuns: the runs the older pattern `\d+` finds are runs of ASCII digits only; Unicode decimal digits beyond ASCII are not part of this model.
- Domain.IdentifierFromKeywords: the `Identifier` dataclass does no type check at run time and accepts any value for `identifer_type` and `identifier`. The model holds only string fields, so it refuses a non-string value with TypeError; this case is reached by `Refextract.IntendedTransform` for a refextract identifier whose type or value is not a string.
- Arbitrate.ArbitratedFields: the fields to arbitrate are `list(set(...))` of the `Reference` annotations minus `score` and `identifier`, iterated in the interpreter's set order. The model fixes declaration order. Only which field's error surfaces first, and the key order of the arbitrated dict, depend on it.
- Merge.MergeRecords: the alignment step (`references.process.merge.align`, whose source is not part of this model) and the `str` of an exception are parameters. The three-extractor scenario of references/process/merge/tests/test_merge.py:33-78 is therefore not stated, because it depends on that unknown aligner.
- ArbitrateLegacy.FieldUnion: the union of field names is a Python set whose iteration order is the interpreter's own. The model iterates fields in order of first occurrence, so results that depend on field order (the key order of the arbitrated dict) are stated for that order only.
- Externals.Env: `clean_text`, `unidecode`, the bloom filters, the DOI/ISBN/strict-arXiv regular expressions, `arxiv.taxonomy.ARCHIVES`, the `repr` of a float, `urlencode` and `is_valid_url` are uninterpreted. Nothing is proved about their results beyond their types (`unidecode` returns ASCII).
- Bloom-filter loading (`_prepare_filters_or_not` and `_load_filters` in both generations of beliefs.py) is file I/O. Its outcome is the optional `filters` field of `Externals.Env`, and without filters `words_title` and `words_auth` are `unity`.
- `similarity_cutoff` (reflink/process/merge/align.py:82-127) computes a median/MAD statistic over extractor names rather than reference lists. Its value is a parameter of `Align.AlignRecords`. Its failures are modelled, because they depend only on the number of extractors: ValueError with none and StatisticsError with one.
- `identity_belief` (both generations) is a debugging helper that nothing calls. It unpacks `reference.keys()` into pairs and would raise for most keys.
- `_dict_repr` (references/process/merge/arbitrate.py:20-36) is not called by anything modelled.
- The `list` controller in references/controllers/extracted_references.py:138 and the Flask routing around the controllers are not modelled. `url_for` is rendered as a location datatype naming the route and its argument.
- Extraction.Status: the `ValueError` message embeds `type(task_id)`. Only the exception class is modelled.
- Logging and `sys.stderr` output are left out everywhere. The consumer's `time.time()` readings are parameters, and its `time.sleep` calls are counted, not performed.
- `process_record` in reflink/notification/consumer.py:73-80 does nothing and is not modelled. The consumer's `__main__` block and the KCL process around it are left out. Its method annotations name `amazon_kclpy`, which is never imported under that name, so Python would raise NameError while defining the class; the model describes the methods as if the class could be defined.
- The AWS, HTTP and XML layers, namely the data store clients, the CERMINE and GROBID XML parsers and the service session classes, are left out. The extractors are modelled by their outcomes only, as parameters of `Extract.ExtractAll`.
- Floating point is exact `real` arithmetic. No rounding is modelled, and `repr` of a float is uninterpreted.

## Findings

| source | as written | input that shows it | evidently intended | confidence | as-written member | corrected member |
|---|---|---|---|---|---|---|
| reflink/notification/consumer.py:87-94 | `any([...])` builds its whole list first, so `sequence_number > None` is evaluated while `_largest_seq` is `(None, None)` | a freshly initialised processor given any record | with nothing recorded, update (the first test short-circuits); otherwise a strict lexicographic comparison, so the processor tracks the maximum position | high, not executed | Consumer.ShouldUpdateAsWritten, Consumer.ShouldUpdateRaisesWhenUnset, Consumer.AsWrittenNeverAdvances | Consumer.ShouldUpdateSequence, Consumer.TrackMaximum, Consumer.ShortCircuitAdvances |
| references/controllers/extraction.py:74-78 | the FAILURE branch updates the module-level `TASK_FAILED` dict in place and returns it | two FAILURE tasks with different reasons queried one after the other, the first response body serialised only after the second call (as with concurrent requests); nothing else reads `TASK_FAILED` and each FAILURE answer overwrites `reason` before it returns, so one request at a time sees no leak | a fresh body per response carrying only that task's reason | high, not executed | Extraction.StatusAsWritten, Extraction.FailureLeaks | Extraction.Status, Extraction.StatusAgrees |
| reflink/process/merge/beliefs.py:52-56 | `bloom_match` divides by the number of words | a title that `clean_text` reduces to no words, such as `""` | 0.0 for text without words, as references/process/merge/beliefs.py:72-73 does | high, not executed | BeliefsLegacy.LegacyBloomMatch, BeliefsLegacy.BloomMatchOnNoWords | Beliefs.BloomMatch |
| reflink/process/merge/beliefs.py:142-153 | `volume`, `issue` and `source` map to the bare function `unity`, which `calculate_belief` then iterates | any record with a `volume`, `issue` or `source` key | a list of checks for every field, as references/process/merge/beliefs.py:259-270 has | high, not executed | BeliefsLegacy.BareFieldFailsRecord | Beliefs.BeliefFunctions, Beliefs.CalculateBeliefInRange |
| references/process/merge/arbitrate.py:217-222 | `_score` reads `result.get('arxiv')`, but the reference field is `arxiv_id` | an arbitrated record whose only field is a non-empty `arxiv_id` scores 0.0 | an arXiv identifier counts like a DOI and gives 1.0 | medium, not executed | Arbitrate.QualityIgnoresArxivId, Arbitrate.ArxivIdOnly | Arbitrate.IntendedQuality, Arbitrate.IntendedQualityAgrees |
| references/process/merge/arbitrate.py:57-63 | relative difference divided by the mean, documented as a similarity | `(0, 1)` gives -1.0 and `(-1, -2)` gives 5/3 | a similarity in [0, 1] that is 1 exactly for equal values | medium, not executed | Arbitrate.NumberSimilarity, Arbitrate.NumberSimilarityOutOfRange | Arbitrate.BoundedNumberSimilarity, Arbitrate.BoundedNumberSimilaritySymmetric |
| references/services/refextract/parse.py:44-48 | the identifiers are read from `metadatum`, where they were never stored | any refextract record with an `identifiers` key | read `refextract_metadatum['identifiers']` and build one `Identifier` per entry | high, not executed | Refextract.IdentifiersRaise | Refextract.IntendedTransform, Refextract.IntendedTransformIdentifiers |
| references/controllers/extracted_references.py:56-58 | `_get_identifiers` reads `ident['identifier_type']`, but a stored `Identifier` is serialised with the key `identifer_type` (references/domain.py:25) | a stored reference with at least one identifier | read the key the data model writes, so each identifier sets the entry named by its type | high, not executed | ExtractedReferences.StoredIdentifiersRaise | ExtractedReferences.IntendedGetIdentifiers, ExtractedReferences.IntendedStoredIdentifiers |
| references/process/merge/normalize.py:36-44 | the first archive whose hyphen-less spelling occurs wins, even when that archive has no hyphen to restore | archives `math` before `math-ph` and the value `"mathph/01"`, which is left unchanged | only archives with a hyphen are typo candidates, so `"mathph/01"` becomes `"math-ph/01"` | medium (assumes `math` is listed before `math-ph`), not executed | Normalize.HyphenlessArchiveStops, Normalize.MathPhTypo | Normalize.FixArxivTypo, Normalize.FixArxivTypoAgrees |
