# GetTransactions: block-range arithmetic and windowed aggregation

This project models the core of `helper.go` in a small Go program. The program lists the transactions of an
Ethereum address over the last few days. It does this in three steps:

- it reads the chain tip from a block-number oracle, whose hex reply is parsed by `hextoDecimal`;
- it estimates the starting block as `tip - 5760 * days` (`GetStartingBlockNumber`);
- it cuts the range from that start to a fresh tip into windows of 1920 blocks and fetches them in order
  (`GetTransactions`).

`GetTransactions` concatenates the windows' transaction lists. On the first failure it returns a nil list
and the error.

Modules:

- `GoTypes` (`go_types.dfy`) holds Go's `(value, err)` convention as `GoResult`, where `value` is always
  the first result Go returns. It also holds `int64` wrap-around (`Wrap64`) and Go's truncating
  division (`Quo`).
- `Hex` (`hex.dfy`) models `hextoDecimal`. It covers `strings.SplitAfter(s, "x")` (`SplitAfterX`) and
  `strconv.ParseInt(piece, 16, 32)` (`ParseUint` and `ParseInt`, following Go's algorithm: optional
  sign, digit-by-digit overflow check at `2^32 - 1`, then the `int32` cutoff).
- `Blocks` (`blocks.dfy`) models `GetStartingBlockNumber`. The tip lookup's outcome is an input.
- `Transactions` (`transactions.dfy`) models `GetTransactions`. Both tip lookups and each window's
  response are inputs. `GetTransactions` makes the two tip checks and computes `limit`. The loop runs
  in `FetchWindows`: a `while counter < limit` loop, the inner copy loop (`AppendEach`), and the reset
  of the reused result buffer. Both methods are proved equal to specification functions (`Aggregate`,
  `FetchAll`). The lemmas about `Aggregate` and `FetchAll` state the window count, the window
  bounds, the in-order concatenation, and all-or-nothing failure. Both methods also return the windows they
  requested, so "no request" and "exactly these requests, in this order" can be stated.

The model follows the code as written:

- The starting block is not clamped at zero. `tip - 5760 * days` can be negative, and
  `StartingBlockNotClamped` shows this.
- An input to `hextoDecimal` without an `x` makes Go panic at `rmPrefix[1]`. The model excludes that
  input with a precondition.
- Every error is returned unchanged, beside a nil list (or `-1`, or `0`).
- `int64` arithmetic wraps around. The model writes the wrap-around out, and the exactness lemmas carry
  explicit no-overflow hypotheses.
- `json.Unmarshal` leaves `transactionlist.Result` untouched when a body has no `result` member. Because the
  loop resets that buffer to nil after each window, such a window contributes no transactions rather than
  the previous window's list again. The response `DecodedWithoutResult` models that case.

## Model

| member | source | states |
|---|---|---|
| `GoTypes.Wrap64` | helper.go:209 | Go's `int64` `+`, `-` and `*`: the result is always an `int64`, and it is the exact value whenever that fits |
| `GoTypes.Wrap64Congruent` | helper.go:209 | the wrapped result differs from the exact one by a multiple of `2^64`: two's-complement wrap-around, not saturation |
| `GoTypes.Wrap64Unique` | helper.go:209 | `Wrap64(x)` is the only `int64` congruent to `x` modulo `2^64`, so it is exactly Go's overflowed value |
| `GoTypes.Wrap64Inner` | helper.go:239-241 | wrapping an inner term first and then the sum gives the same `int64` as wrapping the exact sum once |
| `GoTypes.Wrap64InnerSub` | helper.go:209 | the same for a subtracted inner term, as in `tip - (5760 * days)` |
| `GoTypes.Quo` | helper.go:235 | Go's `a / b` for `b > 0`, truncated toward zero: `q * b` lies between `0` and `a` and is within one `b` of `a`, for either sign of `a` |
| `Hex.SplitAfterX` | helper.go:105 | `strings.SplitAfter(s, "x")` yields at least one piece, and at least two exactly when `s` contains `x` (so `rmPrefix[1]` exists exactly then) |
| `Hex.SplitAfterXJoin` | helper.go:105 | the pieces concatenated give back the input |
| `Hex.SplitAfterXHead` | helper.go:105 | the first piece runs up to and including the first `x`, or is all of `s` if it has none |
| `Hex.SplitAfterXTail` | helper.go:105 | the pieces after the first are the split of the text after the first `x` |
| `Hex.SecondPiece` | helper.go:105-107 | `rmPrefix[1]` is the text after the first `x` up to and including the next `x`, or to the end |
| `Hex.Accumulate` | helper.go:107 | the digit loop of `ParseUint(., 16, 32)` never yields a value above `2^32 - 1`; a range error carries `2^32 - 1` and a syntax error carries `0` |
| `Hex.AccumulateValue` | helper.go:107 | on hex digits the loop returns the positional base-16 value, or a range error once that value exceeds `2^32 - 1` |
| `Hex.AccumulateRejects` | helper.go:107 | a character that is not a hex digit makes the loop fail |
| `Hex.ParseUint` | helper.go:107 | the unsigned part of `ParseInt(., 16, 32)`: never above `2^32 - 1`; a range error carries `2^32 - 1` and a syntax error `0` |
| `Hex.ParseInt` | helper.go:107 | `ParseInt(., 16, 32)` always returns a value in the `int32` range, including the bound it returns on a range error |
| `Hex.ParseIntCorrect` | helper.go:107 | `ParseInt(t, 16, 32)` succeeds if and only if `t` is an optionally signed, non-empty hex numeral in the `int32` range, and then returns its signed value |
| `Hex.HexToDecimal` | helper.go:104-116 | the result is always in the `int32` range, and on every error it is `-1` |
| `Hex.HexToDecimalSpec` | helper.go:104-116 | if and only if the text after the first `x` is an `int32` hex numeral, `hextoDecimal` returns its value with no error; otherwise it returns `-1` and an error |
| `Hex.HexToDecimalPrefixed` | helper.go:105-115 | `hextoDecimal("0x" + h)`, for hex digits `h` with value at most `2^31 - 1`, returns that value and no error |
| `Hex.HexToDecimalSecondX` | helper.go:105-111 | a second `x` after the first one makes `hextoDecimal` return `-1` and an error |
| `Blocks.GetStartingBlockNumber` | helper.go:199-213 | the result is an `int64`; it is an error exactly when the tip lookup failed, and then it is `(0, err)` with the lookup's error |
| `Blocks.StartingBlockWraps` | helper.go:209 | for any `int64` tip and `days`, overflow included, the start is the exact `tip - 5760 * days` wrapped once into `int64` |
| `Blocks.StartingBlockExact` | helper.go:201-211 | for an `int32` tip and a look-back of either sign that cannot overflow, the start is exactly `tip - 5760 * days`, with no clamp |
| `Blocks.StartingBlockNoLookback` | helper.go:209-211 | zero days gives the tip itself |
| `Blocks.StartingBlockMonotone` | helper.go:209 | over every look-back of either sign that cannot overflow, more days never give a later starting block |
| `Blocks.StartingBlockNotClamped` | helper.go:209-211 | a tip below 5760 with `days = 1` gives a negative start |
| `Transactions.WindowCount` | helper.go:235 | `limit * 1920` stays below `2^63`, so the window products `1920 * counter` and `1920 * (counter + 1)` never overflow `int64` |
| `Transactions.WindowAt` | helper.go:239-241 | both bounds of window `counter` are `int64` values, and without wrap-around the window spans exactly 1920 blocks |
| `Transactions.Windows` | helper.go:237-242 | the loop visits `max(limit, 0)` windows |
| `Transactions.Aggregate` | helper.go:214-274 | every failure of `GetTransactions` returns a nil list, and it succeeds only when both tip lookups succeed |
| `Transactions.FetchAll` | helper.go:237-273 | the windows requested are a prefix of the planned windows, all of them on success; a failure carries a nil list and at least one request |
| `Transactions.GetTransactions` | helper.go:214-274 | returns exactly the result and the requests of `Aggregate`: tip failures first, then the windows from the starting block to the second tip |
| `Transactions.FetchWindows` | helper.go:237-273 | the `for counter < limit` loop, with its buffer reset after each window, returns exactly the result and the requests of `FetchAll` over windows `0 .. limit - 1` |
| `Transactions.AppendEach` | helper.go:267-269 | copying the buffer element by element extends the list by exactly the buffer, in order |
| `Transactions.NextWindow` | helper.go:239-271 | after successful windows, the next window is requested; its list is appended, and any of its failures gives a nil list and its error |
| `Transactions.WindowFails` | helper.go:247-265 | a failing window after successful ones is the outcome of the whole run: its error, a nil list, and no later request |
| `Transactions.FetchAllOutcome` | helper.go:237-273 | a run succeeds if and only if every window decodes; a failed run carries the first failing window's error and a nil list, and has requested exactly the windows up to that one |
| `Transactions.FailureIsFinal` | helper.go:247-265 | after a failing window no later window is requested and the failure is the outcome |
| `Transactions.AllWindowsSucceed` | helper.go:267-273 | when every window decodes, every window is requested once, in order, and the result is the in-order concatenation of their lists, each counted once |
| `Transactions.FirstFailure` | helper.go:247-265 | when window `k` is the first failure, windows `0..k` are requested, the result is a nil list with window `k`'s error, and earlier lists are discarded |
| `Transactions.WindowCountExact` | helper.go:235-237 | without overflow the window count is `(tip - start) / 1920` truncated toward zero, and it is zero exactly when `tip - start < 1920` |
| `Transactions.WindowGeometry` | helper.go:239-242 | window `c` is `(start + 1920c, start + 1920(c+1))` with no wrap-around; it ends where window `c+1` starts, and no window ends past the tip |
| `Transactions.TipFailure` | helper.go:224-233 | a failed tip lookup (either one) returns `(nil, err)` before any window is requested |
| `Transactions.NoWindowNoFetch` | helper.go:235-237 | for a look-back of either sign, a range narrower than one window (with `tip - start` not wrapping) requests nothing and returns an empty list with no error |
| `Transactions.OneDayAtTip11520` | helper.go:214-274 | one day at tip 11520 requests (5760,7680), (7680,9600), (9600,11520) in that order and concatenates their lists |
| `Transactions.OneDayAtTip11520SecondFails` | helper.go:247-265 | if the second of those windows fails, exactly two windows are requested and window 0's list is discarded |

## Left out

- `GetLatestBlockNumber` (helper.go:146-172) and `httpRequest` (helper.go:119-143) are network I/O and JSON decoding. The model takes the `(value, err)` outcome of each tip lookup as an input. The `int32` range of a real tip, which comes from `hextoDecimal`, appears as `Blocks.IsTip` in the exactness lemmas.
- `GetFullBlock` (helper.go:175-196) is network I/O, calls `hexutil.EncodeBig`, and is never called on the aggregation path.
- The per-window `http.Get`, `ioutil.ReadAll` and `json.Unmarshal` (helper.go:247-265) are network I/O and JSON. The model takes each window's outcome as an input: get failed, read failed, decode failed, a decoded list, or a decoded body without `result`. The outcome depends on the address and the window bounds only.
- URL construction (helper.go:239-245) and the API key are left out. Only the numeric window bounds are recorded.
- `log.Fatal` (helper.go:249, 257) ends the Go process. The model treats those two failures as the plain `return nil, err` that follows them.
- The wire structs (helper.go:17-101) are left out. A transaction is an arbitrary type parameter `Tx`, and Go's `error` is a type parameter `E`.
- The `fmt.Print*` diagnostics are output only and are left out.
- Calling `GetTransactions` twice with the same inputs gives the same result. Every function is deterministic, so this needs no lemma.
- getTransaction.go (the command-line driver) is not part of this model. It reads input, prints, and measures elapsed time, with no logic of its own.
- `Hex.HexToDecimal`: an input with no `x` makes the source panic. The model excludes it by precondition and gives it no outcome.
- `Hex.ParseIntCorrect`: it says when `ParseInt` fails but not which error kind it reports. A non-digit that follows an overflow yields a range error rather than a syntax error, and this is not stated.
- Characters are modelled as Dafny `char` rather than bytes. Any character outside `0-9a-fA-F` is rejected either way.
