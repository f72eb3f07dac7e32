# gdivide — a Dafny model of the Divider

`gdivide.py` moves private mail from a work Gmail account to a home Gmail account.
For every private correspondent it lists the work messages sent `to:` and `from:` that
address. It then moves each message:

1. It looks for an existing copy in the home account, unless deduplication is skipped.
2. It inserts the raw message into the home account under the hidden `gdivide` label.
   The insert reuses the home thread that an earlier message of the same source thread
   was given.
3. It trashes the original.

Dry run changes nothing in either account.

The model follows the program's own structure:

- `Lists` holds the sequence helpers the divider leans on:
  - `FirstIndex`, the "loop and return on the first match" shape of the label lookup,
    the subject lookup and the duplicate search.
  - `Distinct`, for `list(set(...))`.
  - `SliceTo`, for Python's `s[:n]`, including a negative `n`.
- `Executor` holds `_execute`: one remote request with a retry budget and a fail-hard
  policy. The request is given as the outcome of each successive `execute()` call.
- `Listing` holds `_get_messages`: the paginated listing loop as functions of the
  responses the API hands back.
- `Duplicates` holds the three parts of duplicate detection:
  - the search text of `check_duplicate`, with its sanitising substitution;
  - `_get_subject`;
  - the message comparison of `_check_message_duplicate`.
- `Migration` holds the divider's per-run state as a `Session` value and the mailbox
  API's answers as an `Env` value. `move_message` becomes the state step `MoveStep`,
  and a run becomes `RunSteps`. The lemmas about whole runs live here.
- `Gdivide` holds the `Divider` class itself, with these fields:
  - the cached label;
  - `thread_map`;
  - the two counters;
  - a log of the mutating requests sent (label creation, insert, trash).

  Each of its methods is proved to leave exactly the state that the `Migration` or
  `Listing` function prescribes.

The mailbox API is not called. It is an `Env` whose components answer requests:

- the listing pages for each (account, query);
- the source messages;
- the home messages (`None` when fetching raises);
- the home account's labels;
- the id a created label receives;
- the thread id an insert returns;
- the simhash distance;
- header decoding, HTML unescaping and the day formatting of a timestamp.

The mutating requests are recorded in order in the `mutations` field. This makes "dry
run sends nothing" and "one trash per moved message" statable.

Some behaviours of the code are worth knowing, and the model keeps each of them:

- `thread_map[source thread]` is overwritten by every insert. The map holds the thread
  the latest insert returned, not the first one (`ThreadContinuity`).
- `_get_messages` checks the limit only after a follow-on page. With a limit of 2 and
  pages of 3 and 2 entries, it reads both pages and returns 5 entries
  (`OvershootExample`). `run` then cuts the enumerated ids to `limit`
  (`MessagesToMoveBounded`).
- `obey_limit` defaults to true, so the duplicate search in the home account is also
  cut short by the run's limit (`DuplicateSearch`).
- In dry run, `stats_trashed` is not incremented either (`DryRunChangesNothing`).
- Every follow-on page of a listing is requested from the work account, whatever
  account was asked for the first page (`GetMessages`, `queried`). For the home-account
  duplicate search, the pages after the first therefore come from the work account.
  `Env.pages(account, query)` is the sequence of responses the loop receives in that
  order.

## Model

| member | source | states |
|---|---|---|
| `Lists.FirstIndex` | gdivide.py:346-351 | the index returned has no match before it, and is either a match or the end of the sequence |
| `Lists.FirstIndexIs` | gdivide.py:160-163 | a scan that passed `k` elements without a match and stops at `k`, on a match or at the end, has found the first match |
| `Lists.Distinct` | gdivide.py:214-217 | `list(set(s))` holds no repeats, and every element of the result is in `s` and every element of `s` is in the result |
| `Lists.DistinctMembers` | gdivide.py:215-217 | `x` is in `list(set(s))` exactly when it is in `s` |
| `Lists.SliceTo` | gdivide.py:141-142 | `s[:n]` is a prefix of `s`, of length `min(n, len)` for `n >= 0` and `len + n` (at least 0) for negative `n` |
| `Lists.SliceToNoDup` | gdivide.py:141-142 | a slice of a list without repeats has no repeats |
| `Executor.Execute` | gdivide.py:414-429 | at most `retries + 1` calls (exactly one for a negative budget), all but the last failed; the response is returned iff the last call succeeded; with the budget spent, the last error is raised under fail-hard, else the soft error marker is returned; a negative budget with a failed call falls through to `None` |
| `Executor.FirstSuccessReturned` | gdivide.py:414-416 | the first successful call within the budget gives the returned response, after exactly that many calls |
| `Executor.DefaultBudget` | gdivide.py:414-429 | with the default arguments (2 retries, fail hard) a request is tried at most three times, and three failures raise the third error |
| `Executor.ExhaustedRaises` | gdivide.py:418-420 | when all `retries + 1` calls fail under fail-hard, the last error is raised after `retries + 1` calls |
| `Listing.StopsAfter` | gdivide.py:192-201 | no contract; defines when the loop ends after `k` pages: the last page has no token, or a set, obeyed limit is reached after a follow-on page. Characterised by `Listing.FirstStop` |
| `Listing.ConsumedFrom` | gdivide.py:192-201 | the listing stops at the first page, from `k` on, that has no next-page token or that reaches an obeyed, set limit after a follow-on page |
| `Listing.PagesConsumed` | gdivide.py:189-201 | no contract; defines how many pages `_get_messages` reads. Characterised by `Listing.FirstStop` and `Listing.NoLimitReadsToEnd` |
| `Listing.Listed` | gdivide.py:187-202 | no contract; defines what `_get_messages` returns, the entries of the pages read. Characterised by `Listing.CollectedMembership`, `Listing.OvershootBound` and `Gdivide.Divider.GetMessages` |
| `Listing.FirstStop` | gdivide.py:192-201 | the pages read end at the first stopping point and no page before it is one |
| `Listing.CollectedMembership` | gdivide.py:190-198 | an entry is collected exactly when a page read holds it; a page without `messages` adds nothing |
| `Listing.FirstPageNeverStops` | gdivide.py:199-201 | a first page with a next-page token is always followed by another page, whatever the limit |
| `Listing.NoLimitReadsToEnd` | gdivide.py:192-201 | without a set and obeyed limit, the listing reads every page up to the first one without a token |
| `Listing.OvershootBound` | gdivide.py:199-201 | when three or more pages are read, the entries of all pages but the last number fewer than the limit; the first page alone may exceed it, since the limit is never checked after it |
| `Listing.OvershootExample` | gdivide.py:187-202 | limit 2 with pages of 3 and 2 entries returns 5 entries |
| `Duplicates.Sanitize` | gdivide.py:335-341 | same length; allowed characters (ASCII word characters, whitespace, apostrophe) are kept and every other character becomes a space, so the result holds only allowed characters |
| `Duplicates.SanitizeIdempotent` | gdivide.py:335-341 | sanitising twice is sanitising once |
| `Duplicates.DuplicateQuery` | gdivide.py:335-341 | no contract; defines the search text built from the sanitised subject and snippet and the two days. Characterised by `Duplicates.QuotedPhrasesIntact` |
| `Duplicates.QuotedPhrasesIntact` | gdivide.py:336-341 | the query is `subject:"` + the sanitised subject + `"` … `"` + the sanitised snippet + `"`, and neither quoted phrase holds a double quote, so no subject or snippet can break out of its quotes |
| `Duplicates.SubjectOf` | gdivide.py:392-400 | the first header named "subject" in any letter case gives the subject, decoded or its raw value when decoding fails; no such header gives "" |
| `Duplicates.IsDuplicate` | gdivide.py:353-390 | a missing message never matches; equal raw content always matches; otherwise two single-part messages match iff their payloads are equal; two multipart messages match exactly when their part counts are equal, both first parts decode and the simhash distance is below 3; mixed kinds never match |
| `Duplicates.SelfIsDuplicate` | gdivide.py:363-364 | a message always matches itself |
| `Duplicates.DuplicateSymmetric` | gdivide.py:353-390 | with a symmetric distance the comparison is symmetric |
| `Duplicates.PartCountsDiffer` | gdivide.py:373-374 | multipart messages with different part counts and different raw content never match |
| `Migration.FindLabel` | gdivide.py:160-163 | the first listed label named `gdivide`, or none when no label has that name |
| `Migration.ResolveLabel` | gdivide.py:154-175 | a cached label is returned and nothing is created; else the first listed `gdivide` label is cached; else, outside dry run only, the label is created and cached; a label is always resolved outside dry run |
| `Migration.ResolveLabelIdempotent` | gdivide.py:157-158 | resolving again returns the same label and creates nothing |
| `Migration.SearchQueryFor` | gdivide.py:330-341 | no contract; defines the query of `check_duplicate` from the message's subject, unescaped snippet and `internalDate`. Characterised by `Duplicates.QuotedPhrasesIntact` |
| `Migration.DuplicateSearch` | gdivide.py:342-351 | `None` iff no listed candidate (under the run's limit) compares as a duplicate, else the fetched id of the first one that does |
| `Migration.DuplicateSearchAt` | gdivide.py:346-351 | a scan that passed `k` candidates without a match and stops at `k` returns what `check_duplicate` returns |
| `Migration.Inserts` | gdivide.py:238-240 | no contract; defines the branch test "deduplication skipped, or no truthy duplicate". Characterised by `Migration.MoveStep` and `Migration.DuplicateSkipped` |
| `Migration.TargetThread` | gdivide.py:242-257 | the insert asks for the mapped home thread exactly when the source thread is mapped to a non-empty id |
| `Migration.InsertRequests` | gdivide.py:253-278 | the insert branch sends the insert and then the trash of the original, preceded by one label creation only when the label had to be created |
| `Migration.InsertStep` | gdivide.py:250-278 | the insert branch outside dry run: label resolved and cached, insert into the mapped thread, thread map updated with the returned thread, original trashed, both counters incremented |
| `Migration.MoveStep` | gdivide.py:229-287 | dry run leaves the state unchanged; otherwise the original is always trashed and counted; a duplicate only adds the trash request; a non-duplicate (or a skipped check) also resolves the label, inserts into the mapped thread, counts the insert and records the returned thread |
| `Migration.SkipStep` | gdivide.py:279-287 | no contract; defines the duplicate branch outside dry run: trash and count. Characterised by `Migration.MoveStep` and `Migration.DuplicateSkipped` |
| `Migration.RunSteps` | gdivide.py:144-151 | no contract; defines the state after `move_message` on each id in turn. Characterised by `Migration.RunTrashesEach`, `Migration.RunInsertsCounted`, `Migration.LabelCreatedAtMostOnce`, `Migration.DryRunChangesNothing` and `Gdivide.Divider.Run` |
| `Migration.DirectionQueries` | gdivide.py:211-212 | no contract; defines the `to:` and `from:` queries of one correspondent. Characterised by `Migration.QueriesPairUp` |
| `Migration.Queries` | gdivide.py:210-212 | no contract; defines every query, in issue order. Characterised by `Migration.QueriesPairUp` |
| `Migration.Gathered` | gdivide.py:209-213 | no contract; defines every query's listing, concatenated in issue order. Characterised by `Migration.GatheredMembership` and `Migration.GatheredIds` |
| `Migration.EnumeratedIds` | gdivide.py:214-217 | no contract; defines the deduplicated message ids of the enumeration. Characterised by `Migration.EnumeratedIdsAreListed` |
| `Migration.MessagesToMove` | gdivide.py:139-142 | no contract; defines `messages[:limit]`, or every message without a limit. Characterised by `Migration.MessagesToMoveBounded` and `Gdivide.Divider.Run` |
| `Migration.IdsOf` | gdivide.py:216 | the id of each listed entry, in order |
| `Migration.ThreadsOf` | gdivide.py:214 | the thread id of each listed entry, in order |
| `Migration.QueriesPairUp` | gdivide.py:210-212 | the queries are `to:c` then `from:c` for each correspondent `c`, in order, two per correspondent |
| `Migration.GatheredMembership` | gdivide.py:209-213 | an entry is gathered exactly when one of the queries lists it |
| `Migration.GatheredIds` | gdivide.py:213-216 | an id is gathered exactly when one of the queries lists an entry with that id |
| `Migration.EnumeratedIdsAreListed` | gdivide.py:204-227 | the enumerated message ids have no repeats and are exactly the ids some `to:`/`from:` query listed |
| `Migration.MessagesToMoveBounded` | gdivide.py:139-142 | `run` moves no id twice; with a non-negative limit it moves at most `limit` ids; without a limit it moves every enumerated id |
| `Migration.DryRunChangesNothing` | gdivide.py:247-283 | a dry run leaves the label cache, thread map, counters and request log untouched |
| `Migration.InsertingAmong` | gdivide.py:238-270 | defines how many ids take the insert branch (at most all of them); characterised by `Migration.RunInsertsCounted`, which ties it to `stats_inserted` and the insert requests |
| `Migration.MoveStepCounts` | gdivide.py:250-287 | one move outside dry run appends requests that trash exactly that id, insert once iff it is not a duplicate, and create the label only if none was cached and one is cached afterwards |
| `Migration.RunTrashesEach` | gdivide.py:136-152 | outside dry run every moved id is trashed exactly once, in order, and `stats_trashed` grows by the number of ids |
| `Migration.RunInsertsCounted` | gdivide.py:136-152 | outside dry run `stats_inserted` and the number of insert requests both grow by the number of non-duplicates |
| `Migration.LabelCreatedAtMostOnce` | gdivide.py:154-175 | over a whole run outside dry run, at most one label creation is sent, and none once a label is cached |
| `Migration.ThreadContinuity` | gdivide.py:242-272 | two messages of one source thread: the second insert asks for the thread the first insert returned (when non-empty), and the map then holds the second insert's thread |
| `Migration.DuplicateSkipped` | gdivide.py:279-287 | a message found to be a duplicate is trashed and counted but not inserted, and the label cache and thread map are untouched |
| `Gdivide.Divider.constructor` | gdivide.py:120-134 | the settings are stored; no label is cached, the thread map is empty, both counters are zero and no request has been sent |
| `Gdivide.Divider.GetMessages` | gdivide.py:187-202 | returns exactly `Listed` for the responses and reads `PagesConsumed` pages; the first page is asked of the given account, every follow-on page of the work account |
| `Gdivide.Divider.GetPrivateMessagesFromWork` | gdivide.py:204-227 | the message and thread ids are the distinct ids and thread ids of everything the `to:`/`from:` queries listed, without repeats |
| `Gdivide.Divider.GetOrCreateLabel` | gdivide.py:154-175 | the cached label and request log become what `ResolveLabel` prescribes (one creation request at most); the labels are listed only when nothing was cached |
| `Gdivide.Divider.CheckDuplicate` | gdivide.py:315-351 | returns `DuplicateSearch`: the first listed candidate that compares as a duplicate, or `None` |
| `Gdivide.Divider.TrashMessage` | gdivide.py:290-297 | appends exactly one trash request for the id |
| `Gdivide.Divider.InsertMessage` | gdivide.py:250-278 | leaves the state `InsertStep` prescribes |
| `Gdivide.Divider.MoveMessage` | gdivide.py:229-288 | leaves exactly the state `MoveStep` prescribes |
| `Gdivide.Divider.Run` | gdivide.py:136-152 | moves exactly `MessagesToMove`, in order, and leaves the state `RunSteps` prescribes over them |

## Left out

- Command-line parsing, `main`, OAuth credential storage and `clear_credentials`, and
  building the API clients are out of scope: none of them is Divider logic.
- Request construction is not modelled: query parameters, `fields`, `userId`, and the
  base64 and MIME media upload of the insert. An insert is recorded as the raw content,
  the label ids and the thread id it asks for.
- Base64 decoding and MIME parsing are not modelled. A message carries its headers and
  a `Body` that is already classified as single-part or multipart, with the first part
  decoded in its charset or `None` when that decoding raises. A multipart message with
  no parts, which raises `IndexError` in the source, is represented by `None` there.
- The simhash fingerprint is a given distance function. RFC 2047 header decoding, HTML
  unescaping and the date arithmetic and `%Y/%m/%d` formatting of `internalDate` are
  given functions of `Env`.
- Printing, the progress bar, `time.sleep` between retries and the `ipdb` breakpoint of
  the soft-failure path are left out. The soft failure is the `SoftError` outcome.
- Gdivide.Divider.MoveMessage: the `_execute` calls inside the class methods are taken
  to succeed. `Executor.Execute` models the retry policy alone. An `HttpError` that
  outlives its retries aborts the run in the source, and the model has no aborted run.
- Gdivide.Divider.MoveMessage: the source message is always fetched successfully
  (`Env.fetchWork` is total). In the source, a failed fetch returns `None` and the next
  subscript raises.
- Lists.Distinct: a Python set's iteration order depends on hashing. The model keeps
  first occurrences, and its contract promises only "no repeats, same elements".
- Duplicates.Sanitize: `\w` and `\s` follow Python 2 without the Unicode flag, so only
  ASCII characters are classified as allowed. `_get_subject`'s `lower()` is ASCII
  lowercasing.
- Gdivide.Divider.GetOrCreateLabel: a label list response is a fixed sequence of
  labels for the run, and a created label always receives `Env.createdLabelId`.
- Migration.MoveStep: duplicate searches see the home mailbox as it was at the start of
  the run. The listings and fetches of `Env` are fixed for the run, so a message
  inserted earlier in the same run is never found as a duplicate of a later one. In the
  source, `check_duplicate` searches the home account as changed by the run's own
  inserts.
- Migration.InsertStep: the thread id an insert returns depends only on the raw content
  and the thread asked for (`Env.insertReply`).
- `get_raw_message` is not a separate method. Its result is `Env.fetchWork` for the work
  account and `Env.fetchHome` for the home account. `_get_date`, `_get_snippet` and
  `_get_messages_page` are folded into the functions that use them.
