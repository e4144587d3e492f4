# gitstatus: the signal-handler string builder and the response layout

gitstatus is a daemon that answers "what is the status of this git working
tree" queries for shells and editors. This project models two pieces of its
main file, `src/gitstatus.cc`, and proves properties of them in Dafny:

- **The allocation-free string builder** (module `StrAppend`, with the
  number theory in `DecimalText`). The SIGTERM handler cannot allocate, so it
  composes "Received signal N from pid P.\n" in a zeroed 64-byte stack
  buffer with two `StrAppend` overloads. One copies a C string without its
  terminator. The other writes a `uint64_t` in decimal: a do-while loop
  emits the digits least significant first, and a swap loop reverses them in
  place. Both are methods over an `array<char>` with an index standing for
  the `char*`. They are proved to write exactly the C string, or exactly the
  canonical decimal text of the number, and to leave every other byte
  alone. The handler's composition is proved to need at most 50 of the 64
  bytes for any pid, so no append overflows the buffer.
- **The response `ProcessRequest` prints** (module `Response`). Each answer
  from libgit2, the repository cache, the index scanner and the background
  tag lookup is an input. The model is a function from those answers to the
  ordered list of sixteen fields. Lemmas fix the field order, how the working
  directory is trimmed, and the fallbacks without a HEAD target, without
  `diff` and without an upstream.

Files: `decimal.dfy` (module `DecimalText`), `str_append.dfy` (module
`StrAppend`), `process_request.dfy` (module `Response`).

A failed tag lookup is not read as "no tag". The scope guard at
src/gitstatus.cc:65-72 swallows the failure only while waiting. `tag.get()`
at src/gitstatus.cc:149 rethrows it, so `ProcessRequest` leaves before `Dump`
and no field list is sent. The model does the same
(`Response.FailedTagLookupLosesResponse`).

## Model

`StrAppend.SignalMessage` (src/gitstatus.cc:177-181) is the text `TrapMessage`
is proved to write. `Response.Revision` (src/gitstatus.cc:81),
`Response.UpstreamFields` (src/gitstatus.cc:96-105), `Response.StatFields`
(src/gitstatus.cc:110-130) and `Response.AheadBehindFields`
(src/gitstatus.cc:132-142) are pieces of `Response.ProcessRequest`; the rows
of `TrapMessage` and of the `Response` lemmas state what they produce.

| member | source | states |
|---|---|---|
| `DecimalText.DigitChar` | src/gitstatus.cc:162 | `'0' + n % 10` is a character in `'0'..'9'` |
| `DecimalText.DecimalIsCanonical` | src/gitstatus.cc:159-170 | the decimal text is non-empty and all digits, and it starts with `'0'` exactly when the number is 0 (so 0 is written as the single byte `"0"`) |
| `DecimalText.DecimalLength` | src/gitstatus.cc:159-170 | the text has exactly `NumDigits(n)` characters |
| `DecimalText.ValueOfDecimal` | src/gitstatus.cc:159-170 | reading the text back as a decimal number gives `n` |
| `DecimalText.DecimalOfValue` | src/gitstatus.cc:159-170 | every canonical digit string is the text of its own value, so the text is a bijection onto canonical strings |
| `DecimalText.DecimalInjective` | src/gitstatus.cc:159-170 | distinct numbers get distinct texts |
| `DecimalText.NumDigitsBounds` | src/gitstatus.cc:161-164 | `NumDigits(n)` is the number of places `n` needs: `n < 10^k`, and `10^(k-1) <= n` when `n >= 1` |
| `DecimalText.FitsInDigits` | src/gitstatus.cc:161-164 | a number below `10^k` has at most `k` digits |
| `DecimalText.Uint64HasAtMost20Digits` | src/gitstatus.cc:159 | any `uint64_t` has at most 20 decimal digits |
| `DecimalText.Uint64MaxHas20Digits` | src/gitstatus.cc:159 | the largest `uint64_t` has exactly 20, so the bound is tight |
| `DecimalText.DigitsLength` | src/gitstatus.cc:161-164 | the digits still to be emitted for `m` number `NumDigits(m)`, or none once `m` is 0 |
| `DecimalText.LsdFirstLength` | src/gitstatus.cc:161-164 | the do-while emits exactly `NumDigits(n)` digits |
| `DecimalText.ReversedLsdFirst` | src/gitstatus.cc:161-168 | reversing the least-significant-first digits gives the canonical text |
| `DecimalText.ReversedLength` | src/gitstatus.cc:165-168 | reversal keeps the length |
| `DecimalText.ReversedIndex` | src/gitstatus.cc:165-168 | element `k` of the reversal is element `len-1-k` of the original |
| `DecimalText.ReversedInPlace` | src/gitstatus.cc:165-168 | a sequence that mirrors `s` element by element is `s` reversed |
| `StrAppend.CStrLen` | src/gitstatus.cc:155 | the copy stops at the first NUL: the index found holds NUL and no earlier one does |
| `StrAppend.CStrLenOfLiteral` | src/gitstatus.cc:177-181 | a string literal without NUL has `strlen` equal to its length |
| `StrAppend.AppendCString` | src/gitstatus.cc:154-157 | writes exactly the characters before the terminator at `out`, no terminator, returns `out + strlen(s)`, changes no other byte |
| `StrAppend.AppendUint64` | src/gitstatus.cc:159-170 | writes exactly the canonical decimal text of `n` at `out`, returns `out + NumDigits(n)`, changes no other byte |
| `StrAppend.EmitDigits` | src/gitstatus.cc:160-164 | the do-while leaves the digits of `n` least significant first in `out..p`, at least one, and touches nothing else |
| `StrAppend.SwapEnds` | src/gitstatus.cc:165-168 | the swap loop reverses `out..res` in place and touches nothing outside it |
| `StrAppend.ToUint64` | src/gitstatus.cc:178-180 | converting `int` to `uint64_t` keeps non-negative values and wraps a negative `x` to `2^64 + x` |
| `StrAppend.MessageLiterals` | src/gitstatus.cc:177-181 | the three literals are 16, 10 and 2 characters long |
| `StrAppend.AppendKeepsZeroTail` | src/gitstatus.cc:176-181 | after each append the buffer holds the message so far followed by zeros |
| `StrAppend.TrapMessage` | src/gitstatus.cc:175-182 | the handler's five appends write exactly "Received signal S from pid P.\n" in at most 50 of the 64 bytes and leave the rest zero |
| `StrAppend.NegativePidTakesTwentyDigits` | src/gitstatus.cc:180 | a negative `pid_t` is printed as a 20-digit number, the worst case of the bound |
| `Response.TrimWorkdir` | src/gitstatus.cc:75-77 | no workdir for an empty path; otherwise the printed path is non-empty and equals the input or the input minus one trailing `/`, which is never removed from `"/"` |
| `Response.TrimmedHasNoTrailingSlash` | src/gitstatus.cc:74-77 | the printed path has no trailing `/` unless it is `"/"`, when the input does not end in `//` |
| `Response.TrimDropsOneSlashOnly` | src/gitstatus.cc:77 | `"/a//"` prints as `"/a/"` and `"/"` stays `"/"` |
| `Response.TrimIdempotent` | src/gitstatus.cc:74-77 | trimming a printed path again changes nothing |
| `Response.ProcessRequest` | src/gitstatus.cc:45-152 | a field list is sent exactly when there is a repository with a HEAD, a non-empty workdir and a successful tag lookup, and it always has 16 fields |
| `Response.WorkdirComesFirst` | src/gitstatus.cc:75-78 | field 0 is the trimmed working directory |
| `Response.RevisionEmptyIffNoTarget` | src/gitstatus.cc:80-81 | field 1 is empty exactly when HEAD has no target, and is the target's hex id otherwise |
| `Response.LocalBranchThenState` | src/gitstatus.cc:84-108 | field 2 is the local branch name and field 6 the repository state |
| `Response.NoUpstreamDefaults` | src/gitstatus.cc:96-142 | without an upstream, branch, remote name and URL are `""` and ahead and behind are `"0"` |
| `Response.UpstreamReported` | src/gitstatus.cc:96-138 | with an upstream, fields 3, 4, 5, 12, 13 are its branch, remote name, URL, commits ahead and commits behind |
| `Response.NoDiffZeroStats` | src/gitstatus.cc:124-130 | without `diff` fields 7 to 11 are all 0 |
| `Response.DiffReportsStats` | src/gitstatus.cc:110-123 | with `diff` fields 7 to 11 are index size, staged, unstaged, conflicted, untracked, in that order |
| `Response.DiffOnlyTouchesStats` | src/gitstatus.cc:110-130 | the `diff` flag changes fields 7 to 11 and no other |
| `Response.UpstreamOnlyTouchesItsFields` | src/gitstatus.cc:90-142 | the upstream changes fields 3 to 5, 12 and 13 and no other |
| `Response.StashesThenTagLast` | src/gitstatus.cc:144-149 | field 14 is the stash count and the last field is the tag |
| `Response.FailedTagLookupLosesResponse` | src/gitstatus.cc:149 | when the background tag lookup failed, no field list is sent at all |

## Left out

- Every libgit2 call (`Head`, `git_reference_target`, `git_oid_tostr_s`, `LocalBranchName`, `Upstream`, `GetRemote`, `RemoteUrl`, `RepoState`, `CountRange`, `NumStashes`, `git_libgit2_opts`, `git_libgit2_init`): foreign code. Their results are inputs of `Response.ProcessRequest`. Their own failures are not modelled, except the tag lookup's.
- `RepoCache::Open`, `Repo::GetIndexStats`, `Repo::GetTagName` and the index scanner: repo_cache and repo are not part of this model. So the per-category caps, the large-index shortcut and ahead/behind symmetry are not stated.
- `ResponseWriter`: response.h is not part of this model. How `Print` renders a number, the echoed request id, and what is sent when `ProcessRequest` returns before `Dump` are not modelled. A number is kept as `Count(n)`, and a request without a field list as `None`.
- The wait on the tag future and the swallowed exception at src/gitstatus.cc:64-72: concurrency plumbing. Only the result of `tag.get()` is modelled.
- A bare repository, where `git_repository_workdir` returns null: how `StringView` treats a null pointer is not visible. The workdir is modelled as a string.
- `Trap`'s `sigaction` installation, the `write` to stderr and `_exit(Signal + 128)`: OS effects. Only the bytes of the buffer and the length passed to `write` are modelled.
- The `GitStatus` control loop, `RequestReader`, `Timer`, logging and option parsing: process I/O and infrastructure.
- StrAppend.AppendCString: the source string is a value here, so a source that overlaps the destination buffer is not modelled. In the program every source is a string literal.
- StrAppend.TrapMessage: requires a signal number from 1 to 64, the numbers `sigaction` accepts on Linux. `Trap` is instantiated only for SIGTERM (15).
- Response.TrimmedHasNoTrailingSlash: the comment at src/gitstatus.cc:74 promises no trailing slash, but the code removes only one. The lemma therefore requires that the input does not end in `//`, which holds for the paths libgit2 reports.
- Response.TrimIdempotent: requires the same condition, for the same reason.
