# tcp_cache_server: the store, its expiry rules and command dispatch

`server.py` is a tiny Redis-like cache. It keeps a map from key to
`(value, optional expiry instant)`. It answers `SET key value [EX seconds]`
and `GET key` text lines, and a background reaper deletes expired entries.
This project models that core in Dafny and proves what clients can observe:

- the exact answer to every line;
- which lines change the store, and how;
- when an entry expires;
- that the reaper never changes what a client sees.

Time is an explicit integer `now` passed to every operation in place of
`time.time()`. Each command is modelled as one atomic step: it reads the
clock and updates the store together. The source is not quite like that:
`cmd_set` reads the clock before it takes the lock (server.py:25, server.py:31).
"## Left out" says what this merging leaves out.

Files and modules:

- `wrappers.dfy`, module `Wrappers`: `Option`.
- `text.dfy`, module `Text`: Python's `str.isspace()` whitespace set,
  `str.strip()`, `str.split()`, `str.upper()` on the characters that matter,
  and `int()` on one token.
- `storage.dfy`, module `Storage`: `Entry`, the lazy-expiry read `Read`, the
  reaper pass `Swept`, and the class `Store`. Its field `data` is the shared
  dict, and its methods `Set`, `Get` and `Sweep` update it in place.
- `server.dfy`, module `Server`: `cmd_set`, `cmd_get` and `process_command`.
  The pure functions `ApplySet`, `ApplyGet`, `Dispatch` and `Apply` give the
  answer and the new map. The methods `CmdSet`, `CmdGet` and `ProcessCommand`
  run on a `Store` and are proved to agree with them.
- `properties.dfy`, module `Properties`: the client-visible guarantees.

`WellFormed(m)` says that every key and value is a non-empty,
whitespace-free token. A few lemmas assume it. It holds of every store the
server can reach:

- the store starts empty;
- `ApplyKeepsWellFormed` shows every command line preserves it;
- a sweep only removes entries (`SweptKeepsWellFormed`).

The lemmas need it because a stored value equal to an error text could
otherwise make `GET` answer that text. Tokens can never equal an error text,
since every error text contains a space.

Two behaviours of `cmd_set` that a reader might not expect are modelled
as written:

- `SET k v X t`, with four arguments and a third one that is not `EX`, is
  accepted. It stores `v` with no expiry and answers `OK`, because only the
  arity test at server.py:28 applies (`SetFourWithoutEx`).
- `SET k v EX`, with the expiry missing, answers
  `ERR Wrong number of arguments for SET`, not `ERR Invalid expire time`
  (`SetArity`).

## Model

| member | source | states |
|---|---|---|
| `Text.Strip` | server.py:61 | `str.strip()`: defined as the left strip followed by the right strip; `SplitOfStrip` shows it never changes the tokens |
| `Text.Upper` | server.py:65 | `str.upper()` character by character; `LookupSet`, `LookupGet` and `ExKeyword` give exactly which tokens it maps to `SET`, `GET` and `EX` |
| `Text.StripLeft` | server.py:61 | the result is a suffix of the input; everything dropped is whitespace; the result does not start with whitespace |
| `Text.StripRight` | server.py:61 | the result is a prefix of the input; everything dropped is whitespace; the result does not end with whitespace |
| `Text.Split` | server.py:61 | every token is non-empty and free of whitespace; there are no tokens exactly when the line is all whitespace |
| `Text.SplitInterleave` | server.py:61 | a line made of any words and any whitespace separators (leading and trailing ones optional) splits into exactly those words |
| `Text.SplitOfStrip` | server.py:61 | `line.strip().split()` equals `line.split()` |
| `Text.ParseInt` | server.py:22 | `int()` succeeds only on a token that starts with a digit or a sign, and a negative result needs a leading `-` |
| `Text.ParseDecimal` | server.py:22 | `int(str(n)) == n` for every integer `n` |
| `Text.ParseIntCases` | server.py:22 | signs, leading zeros and single underscores between digits are accepted; doubled, leading or trailing underscores, a bare sign and the empty token are refused |
| `Storage.Read` | server.py:41-50 | the lazy-expiry read: absent key gives no value; expired key gives no value and is deleted; otherwise the value, with the map unchanged. Proved properties: `ReadAnswersLiveOnly`, `SweepCommutesWithRead` |
| `Storage.Swept` | server.py:77-79 | one reaper pass: the map restricted to the entries that are not expired. Proved properties: `SweptExactly`, `SweepIdempotent`, `SweepLaterSubsumes` |
| `Storage.ReadAnswersLiveOnly` | server.py:41-50 | a read answers a value exactly when the key is present and not expired, and then it answers that key's value; an expired key is deleted and nothing else changes |
| `Storage.SweptExactly` | server.py:77-79 | a sweep keeps exactly the entries that are not expired, each with its key, value and expiry unchanged |
| `Storage.SweepIdempotent` | server.py:77-79 | two sweeps at the same instant equal one |
| `Storage.SweepLaterSubsumes` | server.py:72-79 | a sweep at `t1` followed by one at `t2 >= t1` equals the sweep at `t2` |
| `Storage.SweepCommutesWithRead` | server.py:41-50 | reading after a sweep at the same instant gives the same answer, and the same map, as sweeping after the read |
| `Storage.Store.constructor` | server.py:9 | the store starts empty |
| `Storage.Store.Set` | server.py:31-32 | the entry for the key is replaced whole; every other entry is unchanged |
| `Storage.Store.Get` | server.py:41-50 | answer and new map equal `Read`; a value is answered only if live; at most the read key is removed |
| `Storage.Store.Sweep` | server.py:75-79 | the loop over a snapshot of the entries leaves exactly `Swept` of the old map, which `SweptExactly` shows is the unexpired entries, unchanged |
| `Server.Lookup` | server.py:53-65 | the `COMMANDS` table looked up on the upper-cased name; `LookupSet` and `LookupGet` give the exact names that reach each handler |
| `Server.ApplySet` | server.py:13-33 | `cmd_set`'s answer and new map, branch for branch; its properties are `SetArity`, `SetTwoArgs`, `SetFourWithoutEx` and `SetWithExpiry` |
| `Server.ApplyGet` | server.py:36-50 | `cmd_get`'s answer and new map: arity check, then `Read`; its properties are `GetArityError`, `GetArity`, `GetAbsent` and `GetNeverStale` |
| `Server.Tokens` | server.py:61 | `line.strip().split()`; `ApplyIsDispatch` shows it equals `Split(line)` |
| `Server.Dispatch` | server.py:62-68 | `process_command` after tokenizing: empty, unknown, or the handler on the arguments; `DispatchNotEmpty`, `UnknownCommand` and `ErrorsLeaveStoreUnchanged` state what it answers |
| `Server.Apply` | server.py:59-68 | `process_command` on a whole line; `ApplyIsDispatch`, `EmptyLine` and `ApplyKeepsWellFormed` state what it answers and leaves behind |
| `Server.CmdSet` | server.py:13-33 | answer and new store equal `ApplySet` on the old store |
| `Server.CmdGet` | server.py:36-50 | answer and new store equal `ApplyGet` on the old store |
| `Server.ProcessCommand` | server.py:59-68 | answer and new store equal `Apply` on the old store |
| `Properties.ApplyIsDispatch` | server.py:61 | a line is handled exactly as the list of its whitespace-separated words |
| `Properties.ApplyInterleave` | server.py:61 | a line written as words with any whitespace separators is handled as those words |
| `Properties.LookupSet` | server.py:53-56 | the command table finds SET exactly for `set` in any letter case, the first letter also as the long s, which Python upper-cases to `S` |
| `Properties.LookupGet` | server.py:53-56 | the command table finds GET exactly for `get` in any letter case |
| `Properties.ExKeyword` | server.py:20 | the third SET argument counts as `EX` exactly for `ex` in any letter case |
| `Properties.DispatchNotEmpty` | server.py:62-63 | a line with at least one word never answers `ERR Empty command` |
| `Properties.EmptyLine` | server.py:61-63 | `ERR Empty command` is answered exactly for an empty or whitespace-only line, and the store is then unchanged |
| `Properties.UnknownCommand` | server.py:64-67 | `ERR Unknown command` is answered exactly when the upper-cased name is neither SET nor GET, and the store is then unchanged |
| `Properties.SetArity` | server.py:14-29 | SET with 0, 1 or 3 arguments, or more than 4, answers `ERR Wrong number of arguments for SET` and leaves the store unchanged |
| `Properties.SetTwoArgs` | server.py:28-33 | `SET k v` answers `OK` and stores `v` under `k` with no expiry, replacing any earlier entry |
| `Properties.SetFourWithoutEx` | server.py:20-33 | four arguments whose third is not `EX` answer `OK` and store the value with no expiry |
| `Properties.SetWithExpiry` | server.py:20-27 | `SET k v EX t` answers `ERR Invalid expire time` with the store unchanged when `t` is not an integer or is negative; otherwise it answers `OK` and stores `v` with expiry `now + t` |
| `Properties.GetArityError` | server.py:37-38 | GET with any argument count but one answers `ERR Wrong number of arguments for GET` and leaves the store unchanged |
| `Properties.GetArity` | server.py:37-38 | on a reachable store, the GET arity error is answered only for a wrong argument count |
| `Properties.ErrorsLeaveStoreUnchanged` | server.py:59-68 | every `ERR` answer leaves the store unchanged; a changed store comes only with `OK` or `(nil)` |
| `Properties.SweptKeepsWellFormed` | server.py:77-79 | if every key and value is a token before a reaper pass, every one still is after it |
| `Properties.DispatchKeepsWellFormed` | server.py:31-32 | a command made of tokens stores only tokens |
| `Properties.ApplyKeepsWellFormed` | server.py:59-68 | after any line, keys and values in the store are still non-empty and whitespace-free |
| `Properties.GetAbsent` | server.py:42-44 | GET of an absent key answers `(nil)` and changes nothing |
| `Properties.GetNeverStale` | server.py:45-50 | any GET answer other than `(nil)` is the value of a present, unexpired entry |
| `Properties.SetThenGet` | server.py:31-50 | `SET k v` then `GET k`, at any later instant, answers `OK` then `v`, and the GET changes nothing |
| `Properties.SetReplaces` | server.py:32 | `SET k v1; SET k v2; GET k` answers `v2`; the second SET replaces the first entry whole |
| `Properties.SetExThenGet` | server.py:20-49 | `SET k v EX n` at `t0` stores expiry `t0 + n`; a `GET k` at `now <= t0 + n` answers `v` and changes nothing; after that it answers `(nil)` and removes exactly `k` |
| `Properties.SetCommutesWithSweep` | server.py:25 | in the one-step model, an accepted SET writes an entry that is live at its own instant, so sweeping before or after it gives the same store |
| `Properties.SweepInvisible` | server.py:72-79 | a sweep at `now` before any command changes neither its answer nor, up to that sweep, the store it leaves |
| `Properties.ExtraSpaces` | tests/test_server.py:66-71 | `SET   k   v`, with runs of spaces, stores like `SET k v` |
| `Properties.BadExpireTokens` | tests/test_server.py:91-92 | `int("-5")` is the negative integer -5 and `int("notint")` is no integer |
| `Properties.BadExpireLine` | server.py:20-27 | the single-spaced line `SET a b EX t`, with `t` a token that is no integer or a negative one, answers `ERR Invalid expire time` and leaves the store unchanged |
| `Properties.BadExpireLines` | tests/test_server.py:91-92 | the lines `SET a b EX -5` and `SET a b EX notint` both answer `ERR Invalid expire time` and leave the store unchanged |

## Left out

- `handle_client` (server.py:82-99) is not modelled. It covers socket reads
  and writes, byte decoding that ignores errors, splitting a buffer into
  lines, skipping blank lines before `process_command`, and swallowing
  exceptions. All of it is transport I/O.
- `main` (server.py:102-119) is not modelled. It covers argument parsing,
  the listening socket and thread start-up.
- The lock and threads (server.py:10 and the `with lock:` blocks) are not
  modelled. Each operation is modelled as one atomic step.
- The reaper's `while True` / `sleep(interval)` loop (server.py:72-74) is not
  modelled. `Store.Sweep` is one pass at a given `now`.
  `SweepLaterSubsumes` covers repeated passes.
- `cmd_set` reads the clock (server.py:25) before it takes the lock
  (server.py:31). So a GET or a reaper pass can run between the clock
  read and the write, and an `EX 0` entry can already be expired when it
  is stored. The model merges the clock read and the write into one step
  at `now`. `SetCommutesWithSweep` and `SweepInvisible` hold for that
  one-step model only.
- Float timestamps from `time.time()` are not modelled. Time is an
  unbounded integer, and expiry is `now + ttl` exactly.
- Text.ParseInt: it accepts ASCII digits only. Python's `int()` also accepts
  other Unicode decimal digits.
- Text.ParseInt: it has no length limit. Python raises `ValueError` on
  tokens of more than 4300 digits, which would answer
  `ERR Invalid expire time`.
- Huge TTLs are not modelled. In Python, adding a TTL beyond the float
  range to `time.time()` raises `OverflowError`. `cmd_set` does not catch
  it, so the connection closes. The model stores the expiry instead.
- Text.Upper: it maps `a`-`z` and the long s (U+017F) only. The rest of
  Unicode case mapping cannot turn a token into `SET`, `GET` or `EX`, so it
  is left out.
- Text.IsSpace covers the characters for which Python's `str.isspace()`
  holds, written out by code point.
- `client.py` is not modelled. It is a socket client only.
