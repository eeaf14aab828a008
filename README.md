# Multi-tau stress autocorrelator

The stress-autocorrelation observable of oxDNA estimates the time
autocorrelation of the stress tensor with a multi-tau (hierarchical)
correlator, `StressAutocorrelation::Level`. A level holds:

- a buffer `data` of the `p` most recent samples, newest first;
- per-lag sums of products `correlation` and per-lag product counts `counter`;
- a block accumulator (`accumulator`, `accumulator_counter`).

Each time `m` samples have arrived, the level passes their mean to its
`next` level, which it creates on first use. Level `k` therefore samples
`m^k` times more coarsely, and it reports only lags from `start_at = p / m`
onwards, because the finer parent already covers the lags below that.

The project models one chain of such levels:

- construction;
- the per-sample update `add_value`;
- the two report walkers, `get_times` (lags) and `get_acf` (estimates);
- the checkpoint writer `_serialised` and its reader `load_from_file`.

The class `Correlator.Correlator` holds the chain as a sequence `levels`
indexed by depth. Its methods loop over depth where the source recurses
along `next`. Each method is proved against a value-level specification:

- `LevelSpec.Add` specifies one `add_value` call on a whole chain, and `LevelSpec.Run` a sequence of them from a fresh level 0;
- `Report.Lags` and `Report.Acf` specify the two reports;
- `Checkpoint.Encode` and `Checkpoint.Decode` specify the checkpoint.

The lemmas state the source's invariants about these functions:

- how many values each level has received;
- how deep the chain grows;
- the block means each level passes on;
- what every level holds, at every depth: the values it has received (the block means of the level above), the newest p of them in its buffer, the sum of products at each lag it reports, and the sum of its open block in its accumulator;
- report lengths and ordering;
- the checkpoint round trip, in both directions.

Modelling choices:

- Samples are `real` numbers.
- Lags are natural numbers in units of `dt`: lag `i` of level `L` is `i * m^L`.
- The checkpoint is a sequence of numeric tokens; unsigned fields must be non-negative whole numbers.
- `counter` and `accumulator_counter` have the source's unsigned 32-bit type. Their increments wrap modulo 2^32 (`LevelSpec.WrapUint`). The shape and counting lemmas (`ChainGrowth.RunShape`, `ChainGrowth.LevelCounts`) hold for any number n of values, with the counters stated modulo 2^32; only the statements that a counter is non-zero or equals n (`ChainGrowth.RunPopulated`, `ChainContents.RunHeadAcf`, `ChainGrowth.RunAcfFinite`) need n < 2^32. The factor m must fit the 32-bit field, so the block counter never reaches a wrap (`LevelSpec.RunBlocksOpen`).
- `get_acf` divides by a counter that is zero on level 0 before its first value (and, after 2^32 values, once a counter wraps). In IEEE arithmetic that gives a non-finite number, so the model reports `Report.Estimate.NonFinite` in that case rather than requiring every counter to be non-zero.

Lags repeat when `m` does not divide `p`. With `m = 2` and `p = 5`, level 1
starts at lag `5 / 2 = 2`, so its first lag, `2 * 2 = 4`, repeats level 0's
last lag (`Report.DuplicateLag`). When `m` divides `p`, the lags strictly
increase (`Report.LagsStrictlyIncreasing`). Whatever p is, after n >= 1 values
the chain has floor(log_m n) + 1 levels: level k exists exactly when m^k <= n
(`ChainGrowth.RunShape`).

For the worked case m = 2, p = 4 and the samples 1 to 8, the chain has four
levels whose buffers hold [8, 7, 6, 5], [7.5, 5.5, 3.5, 1.5], [6.5, 2.5, 0, 0]
and [4.5, 0, 0, 0] (`ChainContents.WorkedExample`).

Rows whose third column starts with "unfolding step" state one unfolding of
a definition that a later proof uses; they carry no property of their own.

## Model

| member | source | states |
|---|---|---|
| Correlator.Correlator.constructor | src/Observables/StressAutocorrelation.h:39-47 | the chain is valid (non-empty, every level sized) and holds one level with the given m, p and level number; data, correlation and counter have length p and are zero; start_at is 0 on level 0 and p / m elsewhere; both accumulator fields are zero |
| Correlator.Correlator.AddValue | src/Observables/StressAutocorrelation.h:92-115 | the chain stays valid and is LevelSpec.Add of the old chain and v: level 0 absorbs v, and each completed block passes its mean one level deeper, creating that level when it does not exist yet |
| Correlator.AbsorbValue | src/Observables/StressAutocorrelation.h:92-104 | one level's own update (insert at the front, erase index p, update every lag from start_at to the buffer's end, accumulate) equals LevelSpec.Absorb |
| LevelSpec.Shifted | src/Observables/StressAutocorrelation.h:93-96 | the buffer never exceeds p; a buffer of length p keeps length p, its head becomes v, and the rest is the old buffer without its last element |
| LevelSpec.AbsorbEffect | src/Observables/StressAutocorrelation.h:93-104 | after absorbing v: data[0] is v and data[i] is the old data[i-1]; each lag i from start_at to p gains data[0]*data[i] and one more count (mod 2^32); lags below start_at are unchanged; accumulator gains v and its counter grows by one (mod 2^32); m, p, level number and start_at stay |
| LevelSpec.AbsorbLag | src/Observables/StressAutocorrelation.h:98-99 | unfolding step: a lag i from start_at to p gains exactly the product of the newest sample and sample i of the shifted buffer |
| LevelSpec.AbsorbSized | src/Observables/StressAutocorrelation.h:92-104 | absorbing a value keeps the three vectors at length p and keeps m, p, level number and start_at |
| LevelSpec.Add | src/Observables/StressAutocorrelation.h:106-111 | add_value on a chain keeps every level pushable and adds at most one level: next is allocated at most once per call |
| LevelSpec.AddWhenForwarding | src/Observables/StressAutocorrelation.h:106-113 | unfolding step: when the block completes, the head is the absorbed level with both accumulator fields reset, followed by the next level (a fresh level with the same m and p and level number + 1 if there was none) after it receives accumulator / accumulator_counter |
| LevelSpec.AddWhenKeeping | src/Observables/StressAutocorrelation.h:103-106 | unfolding step: when the block is not complete, only the head level changes, by absorbing v; deeper levels are untouched |
| LevelSpec.AddHead | src/Observables/StressAutocorrelation.h:92-104 | after add_value the head level's buffer, correlation and counter are those of absorbing v, whether or not a block mean is forwarded |
| LevelSpec.DepthStepGrow | src/Observables/StressAutocorrelation.h:106-111 | at the deepest level a completed block appends a fresh level with the same m and p and level number + 1, and the rest of the update is that new level receiving the block mean |
| LevelSpec.DepthStepForward | src/Observables/StressAutocorrelation.h:111-113 | at a level with an existing next, a completed block resets the accumulator fields, and the rest of the update is the next level receiving the block mean |
| LevelSpec.DepthStepKeep | src/Observables/StressAutocorrelation.h:103-106 | at a level whose block is not complete, the update of the whole chain replaces that one level by its absorbed state and stops |
| LevelSpec.Run | src/Observables/StressAutocorrelation.h:39-115 | pushing a list of values into a fresh level 0 gives a non-empty pushable chain with at most one level more than values pushed |
| LevelSpec.AddKeepsBlocksOpen | src/Observables/StressAutocorrelation.h:103-114 | if every level's block counter is below its m and m fits 32 bits, the same holds after add_value: a block counter that reaches m is reset to 0, so it never wraps |
| LevelSpec.RunBlocksOpen | src/Observables/StressAutocorrelation.h:39-115 | after any number of values pushed into a fresh level 0 with 2 <= m < 2^32, every level's block counter is below m |
| ChainGrowth.FreshAt | src/Observables/StressAutocorrelation.h:39-47 | a freshly constructed level is in the state of a level that has received no values |
| ChainGrowth.AbsorbAt | src/Observables/StressAutocorrelation.h:98-104 | a level that has received q values absorbs one more: its block counter becomes q mod m + 1, every lag from start_at counts q + 1 (mod 2^32) and lags below count 0; m, p, level number and start_at stay |
| ChainGrowth.ResetAt | src/Observables/StressAutocorrelation.h:106-113 | a completed block leaves the level in the state of q + 1 values received, with accumulator and block counter back at zero |
| ChainGrowth.KeepAt | src/Observables/StressAutocorrelation.h:103-104 | an incomplete block leaves the level in the state of q + 1 values received |
| ChainGrowth.ReachedCons | src/Observables/StressAutocorrelation.h:106-109 | a level that has received q values, followed by a chain that has received q / m, is a chain that has received q values, provided the next level exists exactly when q is at least m |
| ChainGrowth.ForwardCons | src/Observables/StressAutocorrelation.h:106-113 | a reset head level followed by a next level that has received one more block mean is a chain that has received q + 1 values |
| ChainGrowth.AddReachedKeep | src/Observables/StressAutocorrelation.h:103-106 | add_value without a completed block takes a chain that has received q values to one that has received q + 1 |
| ChainGrowth.AddReached | src/Observables/StressAutocorrelation.h:92-115 | add_value takes a chain that has received q values to one that has received q + 1 values, at every depth |
| ChainGrowth.RunReached | src/Observables/StressAutocorrelation.h:39-115 | after n values pushed into a fresh level 0, the chain is in the state of n values received |
| ChainGrowth.ReceivedIsQuotient | src/Observables/StressAutocorrelation.h:103-111 | repeated integer division by m, k times, is floor(q / m^k) |
| ChainGrowth.LevelAtDepth | src/Observables/StressAutocorrelation.h:103-111 | level k of a chain that has received q values has received the number of values that k successive block divisions leave |
| ChainGrowth.LevelCounts | src/Observables/StressAutocorrelation.h:98-111 | level k has the chain's m and p, level number l + k and the start_at rule; it has received floor(q / m^k) values; its block counter is that number mod m, below m; and every reported lag has counted that many products (mod 2^32) |
| ChainGrowth.Depth | src/Observables/StressAutocorrelation.h:106-109 | level k >= 1 exists if and only if m^k <= q |
| ChainGrowth.RunShape | src/Observables/StressAutocorrelation.h:39-115 | after n values, level k >= 1 exists if and only if m^k <= n, and level k has level number k, p slots, the start_at rule, a block counter of floor(n / m^k) mod m, and floor(n / m^k) counts (mod 2^32) on every reported lag |
| ChainGrowth.RunShaped | src/Observables/StressAutocorrelation.h:39-115 | every level of a chain built by pushing values has the head's m and p, level number equal to its depth, and start_at by the constructor's rule |
| ChainGrowth.RunLagsIncreasing | src/Observables/StressAutocorrelation.h:117-125 | when m divides p, get_times on any chain built by pushing values reports strictly increasing lags |
| ChainGrowth.RunPopulated | src/Observables/StressAutocorrelation.h:127-131 | after at least one value, and fewer than 2^32, no reported lag of any level has a zero count |
| ChainGrowth.RunAcfFinite | src/Observables/StressAutocorrelation.h:127-135 | after n values (0 < n < 2^32), every estimate get_acf reports, at every level, is finite |
| ChainContents.MeansLength | src/Observables/StressAutocorrelation.h:103-111 | a level that has received n values passes on floor(n / m) block means |
| ChainContents.MeansAt | src/Observables/StressAutocorrelation.h:103-111 | the j-th block mean passed on is the sum of received values j*m to j*m + m - 1 divided by m |
| ChainContents.MeansSnoc | src/Observables/StressAutocorrelation.h:103-111 | one more value leaves the block means unchanged while the block stays open, and appends the mean of the open block and the new value when it completes the block |
| ChainContents.OpenBlockKeep | src/Observables/StressAutocorrelation.h:103-104 | a value that leaves the block open is appended to the open block |
| ChainContents.OpenBlockClose | src/Observables/StressAutocorrelation.h:106-113 | a value that completes the block empties the open block; the completed block is the newest m values received |
| ChainContents.LagSumStep | src/Observables/StressAutocorrelation.h:98-99 | unfolding step: the lag-i sum over xs + [v] is the lag-i sum over xs plus v times the value i steps older than v |
| ChainContents.DataStep | src/Observables/StressAutocorrelation.h:93-96 | if the buffer holds the received values newest first (zero-padded), each slot does so again after one more value |
| ChainContents.LagUpdate | src/Observables/StressAutocorrelation.h:98-99 | a reported lag i gains the product of the new value and the value received i steps before it |
| ChainContents.CorrelationStep | src/Observables/StressAutocorrelation.h:98-99 | a reported lag i that held the lag-i sum over the values received holds it again after one more value |
| ChainContents.BufferStep | src/Observables/StressAutocorrelation.h:92-101 | a level whose buffer and reported lags match the values it has received still matches them after absorbing one more |
| ChainContents.FreshHolds | src/Observables/StressAutocorrelation.h:39-47 | a fresh level holds what a level that has received nothing holds: zero buffer, zero lags, zero accumulator |
| ChainContents.KeepHolds | src/Observables/StressAutocorrelation.h:92-106 | a value that leaves the block open keeps buffer, lags and accumulator (the open block's sum) matched to the values received |
| ChainContents.ResetHolds | src/Observables/StressAutocorrelation.h:103-113 | a value that completes the block makes the accumulator the sum of the block's m values; after the reset the level holds what it has received |
| ChainContents.FreshCarries | src/Observables/StressAutocorrelation.h:106-109 | the level created for the first block mean has received the (empty) means of fewer than m values |
| ChainContents.TailCarries | src/Observables/StressAutocorrelation.h:106-111 | the level below the head, created if need be, has received the head's block means and is in the count state of that many values |
| ChainContents.ForwardCarries | src/Observables/StressAutocorrelation.h:106-113 | a reset head over a next level that has received one more block mean is a chain whose levels hold what they have received |
| ChainContents.AddCarriesKeep | src/Observables/StressAutocorrelation.h:103-106 | add_value without a completed block keeps every level matched to the values it has received |
| ChainContents.AddCarriesForward | src/Observables/StressAutocorrelation.h:106-113 | add_value with a completed block keeps every level matched, given that the next level is matched after receiving the block mean |
| ChainContents.AddCarries | src/Observables/StressAutocorrelation.h:92-115 | add_value on a chain whose head has received xs gives a chain whose head has received xs + [v] and every deeper level the block means of the level above |
| ChainContents.RunCarries | src/Observables/StressAutocorrelation.h:39-115 | after the samples vs, level 0 has received vs and each deeper level the block means of the level above |
| ChainContents.LevelHolds | src/Observables/StressAutocorrelation.h:106-113 | level k of such a chain holds what it has received: the values k rounds of block means leave |
| ChainContents.HistoryStep | src/Observables/StressAutocorrelation.h:103-111 | level k + 1 receives the block means of what level k receives, and level k receives as many values as the count layer says |
| ChainContents.RunContents | src/Observables/StressAutocorrelation.h:39-115 | after the samples vs, level k has received floor(|vs| / m^k) values, level k + 1 their block means; its buffer holds the newest p of them newest first (zero-padded), each lag from start_at holds the sum of products of values that lag apart, lags below start_at hold 0, and the accumulator holds the sum of the open block |
| ChainContents.BlockMean | src/Observables/StressAutocorrelation.h:103-113 | when one more value completes a level's block, whatever p is, the block counter reaches m, the next level (created if need be) receives the mean of the newest m values the level has received, and the accumulator fields are reset |
| ChainContents.RunHead | src/Observables/StressAutocorrelation.h:92-101 | after pushing values, level 0's buffer holds the p most recent values newest first (zero-padded), and correlation[i] is the sum of x[t] * x[t-i] over all pushed values |
| ChainContents.RunHeadAcf | src/Observables/StressAutocorrelation.h:127-131 | after n values (0 < n < 2^32), level 0's p estimates are finite and equal to the lag-i sum divided by n |
| ChainContents.WorkedHistory | src/Observables/StressAutocorrelation.h:103-113 | with m = 2 and the samples 1 to 8, levels 1, 2 and 3 receive 1.5, 3.5, 5.5, 7.5, then 2.5, 6.5, then 4.5 |
| ChainContents.LevelData | src/Observables/StressAutocorrelation.h:93-96 | level k's buffer is the newest p values it has received, newest first and zero-padded |
| ChainContents.WorkedExample | src/Observables/StressAutocorrelation.h:39-115 | with m = 2, p = 4 and the samples 1 to 8, the chain has four levels whose buffers are [8, 7, 6, 5], [7.5, 5.5, 3.5, 1.5], [6.5, 2.5, 0, 0] and [4.5, 0, 0, 0] |
| Correlator.AppendLags | src/Observables/StressAutocorrelation.h:118-120 | appends exactly the level's lags i * m^level_number for i from start_at to p, in order |
| Correlator.Correlator.GetTimes | src/Observables/StressAutocorrelation.h:117-125 | the output is the given vector followed by the lags of every level, from level 0 downwards |
| Correlator.AppendAcf | src/Observables/StressAutocorrelation.h:128-130 | appends exactly correlation[i] / counter[i] for i from start_at to p, in order, non-finite where the counter is zero |
| Correlator.Correlator.GetAcf | src/Observables/StressAutocorrelation.h:127-135 | the output is the given vector followed by the estimates of every level, from level 0 downwards |
| Report.Quotient | src/Observables/StressAutocorrelation.h:129 | the estimate is finite exactly when the count is non-zero, and then it times the count is the sum |
| Report.LevelAcfAt | src/Observables/StressAutocorrelation.h:128-130 | unfolding step: a level reports one estimate per lag from start_at to p, and the j-th is the quotient at lag start_at + j |
| Report.LagsSuffix | src/Observables/StressAutocorrelation.h:117-125 | unfolding step: the lags from depth d onwards are level d's lags followed by those from depth d + 1 |
| Report.AcfSuffix | src/Observables/StressAutocorrelation.h:127-135 | unfolding step: the estimates from depth d onwards are level d's followed by those from depth d + 1 |
| Report.ReportLengths | src/Observables/StressAutocorrelation.h:117-135 | get_times and get_acf report the same number of entries, the sum over levels of p - start_at |
| Report.AcfFinite | src/Observables/StressAutocorrelation.h:127-135 | when every reported lag has a non-zero count, every estimate is finite |
| Report.LevelLagsBelow | src/Observables/StressAutocorrelation.h:118-120 | a level's lags strictly increase and stay below p * m^level_number |
| Report.LevelLagsAbove | src/Observables/StressAutocorrelation.h:46 | when m divides p, a deeper level's lags are at least p * m^(level_number - 1), the end of its parent's range |
| Report.LagsAtLeast | src/Observables/StressAutocorrelation.h:117-125 | when m divides p, every lag reported from level l >= 1 downwards is at least p * m^(l - 1) |
| Report.LagsFrom | src/Observables/StressAutocorrelation.h:117-125 | when m divides p, the lags reported from any level of a constructor-shaped chain downwards strictly increase |
| Report.LagsStrictlyIncreasing | src/Observables/StressAutocorrelation.h:117-125 | when m divides p, get_times reports strictly increasing lags, so no lag twice |
| Report.DuplicateLag | src/Observables/StressAutocorrelation.h:46 | with m = 2 and p = 5 the reported lags are 0, 1, 2, 3, 4, 4, 6, 8, which do not strictly increase |
| Correlator.AppendLevel | src/Observables/StressAutocorrelation.h:140-161 | appends one level's fields in the writer's order: m, p, level_number, start_at, data, correlation, counter, accumulator, accumulator_counter |
| Correlator.Correlator.Serialised | src/Observables/StressAutocorrelation.h:137-168 | the output is every level's fields, level 0 first, with no delimiter between levels |
| Checkpoint.EncodeSuffix | src/Observables/StressAutocorrelation.h:163-165 | unfolding step: the encoding from depth d onwards is level d's fields followed by the encoding of the deeper levels |
| Checkpoint.EncodeLevelParts | src/Observables/StressAutocorrelation.h:140-161 | a sized level encodes to 3p + 6 tokens, with each field at its fixed offset |
| Checkpoint.EncodeCons | src/Observables/StressAutocorrelation.h:137-165 | unfolding step: a chain encodes as its head level's at least 6 tokens followed by the encoding of the rest |
| Correlator.ReadReals | src/Observables/StressAutocorrelation.h:66-73 | reading n samples succeeds exactly when n tokens remain, and yields those tokens |
| Correlator.ReadNats | src/Observables/StressAutocorrelation.h:76-78 | reading n counters succeeds exactly when n tokens remain and all are non-negative whole numbers, and yields them |
| Correlator.ReadLevel | src/Observables/StressAutocorrelation.h:59-81 | reading one level equals Checkpoint.DecodeLevel: the fields in the writer's order, failing on a missing or non-natural unsigned field |
| Checkpoint.DecodeLevel | src/Observables/StressAutocorrelation.h:59-81 | a level read successfully has its three vectors of length p and consumes at least 6 tokens |
| Checkpoint.NatsOf | src/Observables/StressAutocorrelation.h:75-78 | reading the counters of a range yields one per token |
| Checkpoint.NatToken | src/Observables/StressAutocorrelation.h:155-157 | a written unsigned number reads back as itself |
| Checkpoint.NatsOfAsReals | src/Observables/StressAutocorrelation.h:75-78 | written counters read back as themselves |
| Checkpoint.DecodeFields | src/Observables/StressAutocorrelation.h:59-81 | tokens holding every field of a sized level at its offset read back as that level, ending 3p + 6 tokens later |
| Checkpoint.FieldsOfEncoding | src/Observables/StressAutocorrelation.h:140-161 | tokens that start with a level's encoding hold each of its fields at the writer's offset |
| Checkpoint.DecodeEncodeLevel | src/Observables/StressAutocorrelation.h:59-81 | reading a written level returns that level and stops right after its encoding |
| Checkpoint.DecodeStep | src/Observables/StressAutocorrelation.h:83-89 | unfolding step: the chain read from a position is the level read there, followed by the chain read after it if another token remains, and nothing more otherwise |
| Correlator.Correlator.LoadFromFile | src/Observables/StressAutocorrelation.h:59-90 | loading succeeds exactly when Checkpoint.Decode succeeds, and then the chain is the decoded one and valid (non-empty, every level sized); on failure the chain is unchanged |
| Checkpoint.SplitEncoding | src/Observables/StressAutocorrelation.h:137-165 | in tokens that hold a written chain from pos on, the head level's encoding comes first and the tail's encoding follows it, and another token follows the head exactly when the chain has more levels |
| Checkpoint.DecodeEncodeFrom | src/Observables/StressAutocorrelation.h:59-90 | tokens whose remainder is a written chain read back as that chain |
| Checkpoint.RoundTrip | src/Observables/StressAutocorrelation.h:59-168 | load_from_file on the tokens _serialised writes rebuilds every field of every level and no extra level: the lookahead stops exactly at the end |
| Checkpoint.DecodeLevelEncodes | src/Observables/StressAutocorrelation.h:59-81 | the tokens a successful level read consumed are exactly that level's encoding |
| Checkpoint.EncodeJoin | src/Observables/StressAutocorrelation.h:163-165 | a level's encoding followed by a chain's encoding is the encoding of the longer chain |
| Checkpoint.DecodeIsEncoding | src/Observables/StressAutocorrelation.h:59-90 | whatever the reader accepts is exactly what the writer produces for the chain read: a non-empty chain of sized levels |

## Left out

- The rest of the observable: `update_data`, `get_output_string`, `_serialise`, `_deserialise` and `get_settings`. Only their declarations are in the header, and the stress tensor, forces and torques they use come from the simulation.
- The six correlator chains the observable keeps (`_sigma_xy`, `_sigma_yz`, `_sigma_xz`, `_N_xy`, `_N_yz`, `_N_xz`). The model has one chain; the chains are independent of one another.
- The file wrappers `Level(std::string filename)` and `serialise(filename)`. They only open and close a file around `load_from_file` and `_serialised`.
- `oxDNA/contrib/rovigatti/FSInteraction.cpp`: a pair potential with random placement and file reading, unrelated to the correlator.
- Floating point. Samples, products, means and estimates are exact `real` arithmetic, and `std::pow` is the natural-number power. The `double` that `dt` scales a lag into is left out, so lags are integers in units of `dt`.
- Text formatting. The writer prints doubles with the stream's default six significant digits, so the source's own round trip can round data, correlation and the accumulator. The model's tokens are exact, which is what `Checkpoint.RoundTrip` assumes.
- `tellg`/`seekg`. The reader's lookahead is modelled as "another token remains". A token that fails to parse as an `int` is not modelled separately.
- Stream failures and uint width on reading. When a field is missing or malformed, the source leaves zeros behind or keeps reading. The model rejects the whole stream and leaves the chain unchanged. Unsigned tokens must be non-negative whole numbers, and the model does not bound them by 2^32.
- The width of `m`, `p` and `level_number`. They are unbounded naturals; a wrap of `level_number + 1` would need 2^32 levels.
- Correlator.Correlator.AddValue: requires m >= 2 on every level. With m = 1 the source forwards every value to a new level and recurses without bound, and with m = 0 a deeper level's constructor divides by zero.
- Pointer identity of `next`. The next level is the following element of `levels`, so sharing or aliasing between levels is not modelled.
- ChainContents.RunHeadAcf: stated only for fewer than 2^32 values. Beyond that the 32-bit counters wrap and the divisor is no longer the number of values.
- Checkpoint.RoundTrip: stated for non-empty chains of sized levels, which are the only chains the constructor and `add_value` produce. An empty chain has no level to write.
