# goreth verification-code store, modelled in Dafny

goreth keeps short-lived one-time codes in Redis. Each login is a Redis key
that holds a hash with two fields: `vcode`, the code, and `retry`, the number
of verification attempts, stored as decimal text. The key gets an expiry when
the code is created. Four operations act on the keyspace behind a shared
client:

- `SetLoginAndVcode` checks its arguments. It then runs `HSETNX key vcode`, and only when that set the field does it run `EXPIRE key seconds`.
- `AddRetry` runs a Lua script with `EVAL`. The script calls `EXISTS` and runs `HINCRBY key retry 1` only when the key exists; otherwise it replies 0, which AddRetry reports as "not found".
- `GetVcode` runs `HMGET key vcode retry` and decodes the two values.
- `DelKey` runs `DEL key`.

The model has these files:

- `redis.dfy`: the Redis keyspace. `Db` is a value snapshot: a map from key to hash (field to string), plus a map from key to recorded expiry in seconds. `Keyspace` is a class with `data` and `ttl` fields. Its methods model the six Redis commands goreth uses, each as one atomic step.
- `goreth.dfy`: the store itself. It holds the closed `Error` datatype, the argument checks (`Validate`) and the field decoding (`Decode`) as pure functions. Each operation has a pure specification function on `Db` (`SetLoginAndVcodeSpec`, `AddRetrySpec`, `GetVcodeSpec`, `DelKeySpec`). Each of the four operations is a method that takes the keyspace (`pool`) and issues the same commands in the same order as the Go function. Each method is proved to realise its specification function. `GetVcode` has no `modifies` clause, so it provably changes nothing.
- `decimal.dfy`: decimal text. `Atoi` models `strconv.Atoi`: an optional sign, then one or more digits. `Itoa` is the canonical rendering that Redis writes after `HINCRBY`. `RedisInteger` is Redis's stricter reading of a field before it increments it. A lemma proves the round trip `Atoi(Itoa(n)) == Some(n)` for every integer.
- `utf8.dfy`: Go's `len` counts the bytes of a string's UTF-8 encoding, so the "at least 3" checks count bytes, not characters.
- `goreth_properties.dfy`: the properties, as lemmas on the specification functions.
- `goreth_example.dfy`: the scenario of `goreth_test.go` as a client method.

The model follows the code in these details, which are easy to miss:

- Existence is checked in two ways. `SetLoginAndVcode` and `GetVcode` treat a login as present when its `vcode` field is present. `AddRetry` treats it as present when the key exists at all. `RetryOnlyKey` shows them disagreeing on a key that holds only `retry`. `AddRetryOnRecords` shows they agree on every keyspace the four operations build from an empty one: `Records` holds of the empty keyspace and `OperationsPreserveRecords` keeps it.
- When `strconv.Atoi` fails, `GetVcode` returns the stored code and a count of 0 together with the error. It does not return an empty code.
- `AddRetry` reports `LgnNotFound` whenever the script replies 0. This also happens when an existing count of -1 is incremented to 0, and in that case the key is changed. The model keeps this behaviour. `Records` (every key holds a code and a non-negative count) rules it out.
- The message of `ErrSecondsInvalid` says "min 5", but the check is `seconds < 1`. The model keeps both: `Validate` uses the check and `Message` keeps the text.

## Model

| member | source | states |
|---|---|---|
| `Goreth.Validate` | goreth.go:49-54 | The first failing check is reported, in the order login length (< 3 bytes), code length (< 3 bytes), seconds (< 1). Each error holds exactly when its check fails and the earlier ones pass. Ok holds only when all pass. |
| `Utf8.ByteLen` | goreth.go:50-52 | Go's `len` is the UTF-8 byte count: at least the character count, at most four times it, and equal to it for ASCII text. |
| `Goreth.SetLoginAndVcode` | goreth.go:44-83 | Validation, then HSETNX, then EXPIRE only when the field was set. The new keyspace and the result are exactly those of `SetLoginAndVcodeSpec`, and the keyspace stays well-formed. |
| `Goreth.AddRetryScript` | goreth.go:95-104 | The EVAL script as one atomic step. It replies 0 and changes nothing on a missing key. Otherwise it replies what HINCRBY retry 1 replies: the new count, or an error for a non-integer field. |
| `Goreth.ReplyError` | goreth.go:113-119 | The reply mapped to an error: Ok exactly for a count other than 0; an error reply gives BackendError and 0 gives LgnNotFound. |
| `Goreth.AddRetry` | goreth.go:93-120 | The script's reply mapped to an error: error reply gives BackendError, 0 gives LgnNotFound, anything else gives Ok. The new keyspace is that of `AddRetrySpec`. |
| `Goreth.Decode` | goreth.go:150-165 | No code gives ("", 0, LgnNotFound). A code without a retry field gives (code, 0, Ok). Whenever a code is present it is returned and the result is never LgnNotFound. |
| `Goreth.GetVcode` | goreth.go:124-170 | One HMGET of vcode and retry, then `Decode`. The result is `GetVcodeSpec` of the current keyspace, and the keyspace is not modified. |
| `Goreth.DelKey` | goreth.go:174-190 | DEL of the key. The result is always Ok, and the new keyspace is the old one without the key and without its expiry. |
| `Redis.Keyspace.constructor` | goreth.go:13-14 | The keyspace behind the client starts empty and well-formed. |
| `Redis.Keyspace.HSetNX` | goreth.go:57-62 | Sets the field exactly when it was absent, creating the key if needed, and reports whether it did. Expiries are unchanged. |
| `Redis.Keyspace.Expire` | goreth.go:79-80 | On a missing key, does nothing and reports so. With a positive time, replaces the key's expiry. With any other time, deletes the key. |
| `Redis.Keyspace.Exists` | goreth.go:96 | 1 exactly when the key is present, else 0. |
| `Redis.Keyspace.HIncrBy` | goreth.go:86-89 | Increments an integer field, an absent field counting as 0. It creates the key when the key is missing. A field that is not an integer gives an error reply and no change. |
| `Redis.Keyspace.HMGet` | goreth.go:148 | One value per requested field, None for each absent field. A missing key reads as an empty hash. |
| `Redis.Keyspace.Del` | goreth.go:177 | Removes the key with all its fields and its expiry, reports 1 or 0, and touches no other key. |
| `Decimal.Atoi` | goreth.go:163 | A text is accepted exactly when it is an optional '+' or '-' followed by one or more digits. The value is that of the digits, leading zeros included, negated after '-'. |
| `Decimal.NatToDigits` | goreth.go:98 | The digits of a count: non-empty, all digits, no leading zero. |
| `Decimal.Itoa` | goreth.go:98 | The rendering HINCRBY stores: non-empty, and it starts with '-' exactly for negative numbers. |
| `Decimal.DigitsValueOfNatToDigits` | goreth.go:163 | Reading the digits of n gives n back. |
| `Decimal.AtoiItoa` | goreth.go:98-163 | strconv.Atoi reads back every count HINCRBY writes: `Atoi(Itoa(n)) == Some(n)` for all integers. |
| `Decimal.RedisInteger` | goreth.go:86-89 | A field Redis accepts as an integer is exactly the canonical rendering of that integer, and `Atoi` gives the same value. |
| `Decimal.RedisIntegerItoa` | goreth.go:98 | Redis accepts every rendering it writes, with the same value. |
| `Decimal.LenientAtoi` | goreth.go:163 | "+1" and "01" are read by strconv.Atoi but refused by Redis. "", "-" and "1a" are refused by strconv.Atoi. |
| `GorethProperties.InvalidArgumentsChangeNothing` | goreth.go:49-54 | Each validation failure is returned in order, and the keyspace is left unchanged. |
| `GorethProperties.ValidationBoundaries` | goreth.go:49-54 | A 2-byte login or code is rejected, 0 seconds is rejected, and ("qwe", "121", 1) passes. The 2-character, 3-byte login "aé" passes. |
| `GorethProperties.CreateWhenAbsent` | goreth.go:62-82 | Without a code, a valid call returns Ok. It stores the code and records the expiry, and leaves the login's other fields and every other key's data and expiry as they were. |
| `GorethProperties.CreateExactlyOnce` | goreth.go:73-77 | With a code present, the call returns LgnExists (after the argument checks) and the keyspace is unchanged: code, count and expiry. |
| `GorethProperties.SecondCreateKeepsFirst` | goreth_test.go:22-34 | On a fresh login, a create returns Ok and a read then gives (code, 0, Ok). A second create with another code returns LgnExists and changes nothing. |
| `GorethProperties.NoResurrection` | goreth.go:96-100 | On a missing key, AddRetry returns LgnNotFound and creates nothing, so a later read still gives LgnNotFound. |
| `GorethProperties.IncrementExisting` | goreth.go:98 | On an existing key with count n, AddRetry stores n + 1 and returns Ok unless n + 1 is 0. Other fields, other keys and all expiries are untouched. |
| `GorethProperties.CorruptRetryBlocksIncrement` | goreth.go:104-113 | A retry text Redis cannot read as an integer makes AddRetry return BackendError with nothing changed. |
| `GorethProperties.RetriesAccumulate` | goreth.go:93-120 | k calls of AddRetry take a non-negative count m to m + k. They change neither the other fields nor the other keys nor any expiry. |
| `GorethProperties.RetryStep` | goreth.go:98 | One more call on such a series raises the count by one and keeps the rest of the keyspace as it was before the series. |
| `GorethProperties.RetriesSucceed` | goreth.go:115-119 | Each of those k calls returns Ok. |
| `GorethProperties.ReadResults` | goreth.go:150-169 | A read gives: LgnNotFound without a code; (code, 0, Ok) without a retry field; the Atoi value with Ok when Atoi accepts the text; (code, 0, DecodeError) when it does not. |
| `GorethProperties.DecodeReadsBackRetry` | goreth.go:157-165 | A read gives back exactly the count HINCRBY last wrote. |
| `GorethProperties.ReadSeesCount` | goreth.go:157-165 | A read returns the count HINCRBY would find in the field. |
| `GorethProperties.CreateThenCount` | goreth_test.go:22-48 | Create, then N calls of AddRetry: every call returns Ok, and the next read gives (code, N, Ok). |
| `GorethProperties.DeleteIdempotent` | goreth.go:172-190 | Delete returns Ok and removes the key and its expiry. It changes no other key, a second delete changes nothing, a later read gives LgnNotFound, and on a missing key it is a no-op. |
| `GorethProperties.CreateCountDeleteLeavesNoTrace` | goreth_test.go:22-52 | Create, any number of attempts, then delete: the keyspace is exactly as before. |
| `GorethProperties.OperationsPreserveWf` | goreth.go:62-177 | Every operation keeps the keyspace well-formed: no empty hash, and every expiry is positive and belongs to a present key. |
| `GorethProperties.OperationsPreserveRecords` | goreth.go:62-177 | The operations keep every key a verification record: a code, and a retry field, if any, holding a non-negative canonical count. |
| `GorethProperties.AddRetryOnRecords` | goreth.go:73-98 | On records, "key exists" and "vcode present" agree. AddRetry then returns Ok exactly for present logins, and each call raises the count a read returns by one. |
| `GorethProperties.RetryOnlyKey` | goreth.go:73-98 | A key holding only retry is absent for GetVcode but counted by AddRetry, and a later create keeps that count. |
| `GorethProperties.MessagesDiffer` | goreth.go:34-40 | The five exported error values have distinct texts. |
| `Goreth.Message` | goreth.go:34-40 | Each exported text starts with the error's name followed by ": ", and a hint follows. |
| `GorethProperties.MessageTexts` | goreth.go:34-38 | The five texts of the exported Go values, word for word, "min 5" for SecondsInvalid included. |
| `GorethExample.ExampleDbauth` | goreth_test.go:11-57 | The test scenario: the first create returns Ok, the second returns LgnExists, and each of the eight attempts returns Ok. The read then returns ("121", 8, Ok). The delete returns Ok, a read after it returns LgnNotFound and the keyspace is as before. |

## Left out

- Connection setup (`InitPool`, the client options and the ping at goreth.go:13-32): the client handle is the `Keyspace` object passed to each operation.
- Transport and protocol errors from the client (the `err != nil` returns at goreth.go:71, 113, 136-137, 179-181) are assumed not to happen. The one error reply that is modelled is HINCRBY on a non-integer field, as `BackendError`.
- Concurrency: each Redis command, and the whole EVAL script, is one atomic step. Interleavings of several callers are not modelled. Neither is a crash or a concurrent DEL between HSETNX and EXPIRE in `SetLoginAndVcode`, which can leave a code without an expiry.
- Time: an expiry is recorded as a number of seconds, and the server never removes keys when time passes. The `time.Duration` scaling `seconds * time.Second` and the client's conversion back to whole seconds are not modelled.
- Integer widths: counts and parsed values are unbounded. strconv.Atoi range errors and HINCRBY 64-bit overflow are not modelled.
- Strings are Dafny strings (sequences of Unicode scalar values), so Go strings holding invalid UTF-8 cannot be expressed. Field values are compared as whole strings.
- Error texts: DecodeError stands for the `*strconv.NumError` that GetVcode returns, whose text is not modelled.
- The test's logging and printing (goreth_test.go) are left out. The checks it makes on the outputs, including that the first create and the delete succeed, are the ensures of `GorethExample.ExampleDbauth`.
