# isaacutils: post attribute extraction and batched e-mail alerts

This project models two parts of the `isaacutils` Python package in Dafny.

- **`isaacutils.posts`.** `get_post_attr` reads one attribute out of a decoded
  Twitter/X post. It first peels off any number of
  `TweetWithVisibilityResults` envelopes. Then it walks each candidate dotted
  path of the attribute, with a missing key giving an empty dict. It keeps
  the results that are not dicts and requires them all to be equal.
  `get_post_attrs` does this for every attribute of a path table.
- **`isaacutils.mail`.** `EmailHandler` is a logging handler that queues
  error records. It is meant to send the queue as one e-mail when a truthy
  `max_batch_size` is reached; as written it deadlocks at that point instead
  (see "## Findings"). It also sends the queue on `flush`/`close`. The e-mail's
  subject depends on the batch size. The HTML body has a summary block for
  batches of several records and one block per record (with critical styling,
  numbering and an escaped stack trace). The `To` header is built from one
  address or a list of them.

Files:

- `text.dfy` (module `Text`): Python's `str.split`, `str.join`, single-character
  `str.replace` and the handler's HTML escaping, with the facts the other
  modules need: split/join round trips, and escaping that decodes back and
  leaves no raw markup characters.
- `posts.dfy` (module `Posts`): JSON values, the extractor as functions and as
  the source's loops (`GetPostAttr`, `GetPostAttrs`), and its properties.
  Python exceptions are `Err` values: `AttributeError` from `.get` on a value
  that is not a dict, `TypeError` from putting a list leaf in a `set`, and
  `AssertionError` from disagreeing leaves. Python's `None` is `Null`, and
  `True == 1` / `False == 0` are modelled by `Canon`.
- `mail.dfy` (module `Mail`):
  - the pure pieces of the e-mail;
  - the queue state machine as functions of the pending queue and the batches
    sent so far (`Pending`, `EmitStep`, `SendStep`, `FlushStep`);
  - the class `EmailHandler`, whose methods update the queue field in place and
    are proved against those functions;
  - a model of `emit` as written, with its lock (see Findings).

## Model

| member | source | states |
|---|---|---|
| Text.Split | src/isaacutils/posts.py:39 | `path.split(".")` yields at least one part and no part contains the separator |
| Text.JoinSplit | src/isaacutils/posts.py:39 | joining the parts of a split with the separator gives back the path |
| Text.SplitJoin | src/isaacutils/mail.py:30 | splitting a joined list on the separator recovers the parts, each after the first still carrying the rest of the joiner |
| Text.EscapeHtml | src/isaacutils/mail.py:228-236 | `_escape_html`, the five chained replacements with `&` first (its properties are the next four rows) |
| Text.EscapeRoundTrip | src/isaacutils/mail.py:228-236 | decoding the five entities in the escaped text gives back the original text: `&` is replaced first, so no entity is escaped twice |
| Text.EscapeHtmlPerChar | src/isaacutils/mail.py:228-236 | the five chained replacements equal escaping each character on its own |
| Text.EscapeHtmlSafe | src/isaacutils/mail.py:228-236 | the escaped text contains no raw `<`, `>`, `"` or `'` |
| Text.EscapeHtmlKeepsPlain | src/isaacutils/mail.py:228-236 | text without special characters is left unchanged |
| Posts.Get | src/isaacutils/posts.py:29 | `obj.get(key, default)` raises exactly when `obj` is not a dict |
| Posts.Inner | src/isaacutils/posts.py:32 | one unwrap step moves to the `tweet` field, or to the empty dict when it is missing (the contract is stated by `Posts.Unwrap`) |
| Posts.Unwrap | src/isaacutils/posts.py:30-32 | the unwrap loop ends on a dict that is not an envelope, or fails because a value is not a dict |
| Posts.Walk | src/isaacutils/posts.py:40-42 | the only failure of a path walk is `.get` on a value that is not a dict |
| Posts.Collect | src/isaacutils/posts.py:37-44 | no more values than paths are collected, none of them is a dict, and the only failure is `.get` on a value that is not a dict |
| Posts.Decide | src/isaacutils/posts.py:49-51 | a successful result is one of the leaves and equal, as Python compares, to all of them; the only failures are TypeError and AssertionError |
| Posts.PostAttr | src/isaacutils/posts.py:28-51 | `get_post_attr` as a function; for any attribute but `__typename`, a result means the unwrap succeeded and the result is never a dict, and a value other than None needs the attribute in the table |
| Posts.GetPostAttr | src/isaacutils/posts.py:28-51 | the loops compute `PostAttr`: `__typename` first, then the unwrap, unknown attribute, path walk, collection and agreement check |
| Posts.GetPostAttrs | src/isaacutils/posts.py:70-74 | succeeds iff every attribute's extraction does; the result has exactly the table's keys, each mapped to its extracted value; on failure it reports the error of the first failing attribute in key order |
| Posts.TypenameFirst | src/isaacutils/posts.py:28-29 | `__typename` is read from the post as given, before unwrapping, so an envelope reports its own type |
| Posts.UnwrapIdempotent | src/isaacutils/posts.py:30-32 | unwrapping an unwrapped post changes nothing |
| Posts.UnknownAttr | src/isaacutils/posts.py:33-35 | an attribute missing from the table yields None exactly when the unwrap succeeds, and without unwrapping for a plain post |
| Posts.WalkMissingKey | src/isaacutils/posts.py:41-42 | a missing key gives the empty dict, and the walk stays there |
| Posts.WalkIntoScalar | src/isaacutils/posts.py:41-42 | walking further from a value that is not a dict raises |
| Posts.WalkAppend | src/isaacutils/posts.py:41-42 | walking a concatenated path is walking its first part, then the rest |
| Posts.CollectOk | src/isaacutils/posts.py:38-44 | the collection succeeds iff every candidate path walks without raising |
| Posts.CollectFirstError | src/isaacutils/posts.py:38-44 | a failed collection carries the error of the first path that raises |
| Posts.CollectLeaves | src/isaacutils/posts.py:43-44 | the collected values are exactly the non-dict results of the paths |
| Posts.CollectCons | src/isaacutils/posts.py:38-44 | collected values keep the order of the paths |
| Posts.CollectAllDicts | src/isaacutils/posts.py:43-44 | paths that all end on dicts collect nothing |
| Posts.NoLeafIsNull | src/isaacutils/posts.py:46-47 | with no non-dict result the attribute is None |
| Posts.LeavesAgree | src/isaacutils/posts.py:49-51 | the result is the first leaf and is equal (as Python compares) to every leaf; a list leaf raises TypeError; disagreeing hashable leaves raise AssertionError, for every attribute |
| Posts.SplitDotted | src/isaacutils/posts.py:39 | a dotted path built from dot-free keys splits back into those keys |
| Posts.TextPathsSplit | src/isaacutils/posts.py:39 | the two paths of "text" split into their keys |
| Posts.WalkNote | src/isaacutils/posts.py:40-42 | the note path reaches the text of a note |
| Posts.WalkLegacy | src/isaacutils/posts.py:40-42 | the legacy path reaches the legacy text |
| Posts.CollectPair | src/isaacutils/posts.py:37-44 | two paths that walk cleanly collect their non-dict results in order |
| Posts.LegacyOnly | src/isaacutils/posts.py:37-51 | a post with only the legacy text yields that text |
| Posts.EnvelopeUnwrapped | src/isaacutils/posts.py:30-51 | a wrapped post yields the text of the post inside the envelope |
| Posts.TextConflict | src/isaacutils/posts.py:49 | a note text and a different legacy text make the extraction of "text" raise |
| Posts.PostAttrDocumented | src/isaacutils/posts.py:12-13 | "text" as the docstring describes it never raises AssertionError or TypeError; every other attribute is extracted as written |
| Posts.FirstLeaf | src/isaacutils/posts.py:38-44 | the first collected value comes from the first path that reaches a value that is not a dict |
| Posts.DocumentedTextIsFirstLeaf | src/isaacutils/posts.py:12-13 | as documented, "text" is None when every path ends on a dict, and otherwise the value of the first path that reaches a non-dict |
| Posts.NoteTextPreferred | src/isaacutils/posts.py:12-13 | as documented, with both texts present the note text is returned |
| Posts.LegacyTextFallback | src/isaacutils/posts.py:12-13 | as documented, without a note the legacy text is returned |
| Mail.ToHeader | src/isaacutils/mail.py:55 | the `To` header: the address itself, or the list joined with `", "` (its properties are the next two rows) |
| Mail.HeaderRoundTrip | src/isaacutils/mail.py:55 | the addresses of a non-empty list of comma-free addresses can be read back from the `To` header in order (the empty list's header `""` reads back as `[""]`) |
| Mail.HeaderSingle | src/isaacutils/mail.py:55 | a one-element list gives the same header as the bare address |
| Mail.NatStringRoundTrip | src/isaacutils/mail.py:142 | the decimal count in the subject reads back as the number |
| Mail.Subject | src/isaacutils/mail.py:139-142 | the subject of a batch starts with the prefix and a space |
| Mail.SubjectNamesBatch | src/isaacutils/mail.py:139-142 | the subject starts with the prefix; a one-record batch names the level and ends with the message; any other batch states the record count as a decimal string without leading zeros, which reads back as the count |
| Mail.NatToStringDecimal | src/isaacutils/mail.py:142 | `str(n)` is one or more digits with no leading zero |
| Mail.DecimalCanonical | src/isaacutils/mail.py:142 | a decimal string without leading zeros is `str` of the number it reads as, so the count in the subject is exactly `str(len(records))` |
| Mail.RecordBlock | src/isaacutils/mail.py:192-213 | the block of one record (the contract is stated by `RecordBlockShows`) |
| Mail.RecordBlockShows | src/isaacutils/mail.py:191-215 | a record's block has critical classes iff the level is CRITICAL, the error ones otherwise, a number iff the batch has several records, the time, location and message as they are, and a trace iff the record has one, equal to `EscapeHtml` of the trace text, so free of raw markup characters and decoding back |
| Mail.EntriesAt | src/isaacutils/mail.py:191 | block k is record k, numbered k + 1 |
| Mail.FormatHtmlBatch | src/isaacutils/mail.py:183-215 | a summary block (count, first and last time) comes first iff there are several records; then one block per record, in order, as `RecordBlockShows` states, its trace being exactly `EscapeHtml` of the record's trace text |
| Mail.LimitReached | src/isaacutils/mail.py:105 | `self.max_batch_size and len(self.error_queue) >= self.max_batch_size`: a None or 0 limit never triggers (used by `EmitStep`, whose contract states the cases) |
| Mail.SendStep | src/isaacutils/mail.py:111-122 | `_send_batch` with an empty queue changes nothing; otherwise the whole queue goes out as a single batch after the earlier ones, which stay unchanged, and nothing is left pending |
| Mail.EmitStep | src/isaacutils/mail.py:98-106 | with a falsy limit the record is only queued; with a positive limit fewer than that many records stay queued; with a negative limit nothing stays queued |
| Mail.FlushStep | src/isaacutils/mail.py:238-241 | `flush` with an empty queue changes nothing; otherwise it sends the whole queue as a single batch after the earlier ones, which stay unchanged, and nothing is left pending |
| Mail.EmitLosesNothing | src/isaacutils/mail.py:98-106 | after an emit, the sent and pending records are the earlier ones plus the new record, in order |
| Mail.SendLosesNothing | src/isaacutils/mail.py:116-122 | sending and flushing lose, duplicate and reorder no record |
| Mail.EmitKeepsInv | src/isaacutils/mail.py:98-106 | emit keeps the invariant: no empty batch is sent, and under a positive limit no batch exceeds it and the queue stays below it |
| Mail.SendKeepsInv | src/isaacutils/mail.py:116-122 | sending and flushing keep that invariant: an empty queue sends nothing |
| Mail.EmitAllUnlimited | src/isaacutils/mail.py:105 | with no limit, any number of emits sends nothing |
| Mail.EmitAllBatches | src/isaacutils/mail.py:98-106 | with a positive limit n, emits send the records in full batches of n, in order, and keep the rest queued |
| Mail.BatchesOfLimit | src/isaacutils/mail.py:98-106 | from an empty queue, N records under limit L send exactly N / L batches of L records and leave N % L queued; a flush then sends them all, in order |
| Mail.ChunksPartition | src/isaacutils/mail.py:121-122 | the full batches and the leftover, in order, are the records again |
| Mail.EmitAsWritten | src/isaacutils/mail.py:101-106 | `emit` as written, with the lock held while `_send_batch` acquires it again (the contract is stated by `EmitAsWrittenDeadlocks`) |
| Mail.EmitAsWrittenDeadlocks | src/isaacutils/mail.py:101-106 | as written, an emit that reaches the limit never returns; every other emit matches `EmitStep` |
| Mail.FirstEmitDeadlocks | src/isaacutils/mail.py:101-116 | with `max_batch_size=1` the first emit blocks forever |
| Mail.EmailHandler.constructor | src/isaacutils/mail.py:80-92 | the handler starts with its settings and an empty queue |
| Mail.EmailHandler.Emit | src/isaacutils/mail.py:98-106 | the new queue and sent log are `EmitStep` of the old ones; the invariant is kept |
| Mail.EmailHandler.SendBatch | src/isaacutils/mail.py:110-130 | the new state is `SendStep` of the old one |
| Mail.EmailHandler.Flush | src/isaacutils/mail.py:238-241 | the new state is `FlushStep` of the old one; the invariant is kept |
| Mail.EmailHandler.Close | src/isaacutils/mail.py:243-245 | close flushes: the new state is `FlushStep` of the old one |
| Mail.EmailHandler.SendEmailBatch | src/isaacutils/mail.py:136-154 | the message has the handler's sender, the `To` header, the subject chosen for the batch and the HTML structure of the batch |

## Left out

- SMTP (STARTTLS, login, `send_message`) and reading the password file are I/O. `send_alert`'s plain-text message is left out for the same reason; only its `To` header expression is modelled, and it is the same expression as `send_html_alert`'s.
- Threads: the background thread, its daemon flag, `wait` and the 30-second join are concurrency. A batch handed to the thread is appended to the ghost log `sent`.
- The lock is modelled only where it decides behaviour, in the as-written `emit` (see Findings).
- `flush` tests the queue without the lock. That race matters only under concurrency and is not modelled.
- The `atexit` registration, `handleError` for exceptions in `emit`, and the `print` on a failed send are runtime hooks and output.
- The `logging.warning` for an unknown attribute is output; the `None` result is modelled.
- The level test (ERROR and above) is made by `logging.Logger.callHandlers` before the handler is called. It is not part of this model. `super().close()` is library code.
- `_format_time` (local-time formatting) is the parameter `formatTime`.
- `traceback.format_exception` is the record's `excText` string. `getMessage()` is the record's `message`.
- The HTML body is modelled as its structure, the `Block`s. The CSS, tags and literal text around them are not modelled.
- Python equality beyond `True == 1` / `False == 0` is not modelled: there are no floats, and `1 == 1.0` is not covered.
- `Posts.GetPostAttrs` takes the table's key order as an explicit `order` parameter, because a Dafny map has no order. Only the error case depends on it.
- `Mail.FormatHtmlBatch` does not escape the message, matching the code: only the stack trace is escaped.
- The docstring of `get_post_attr` also promises an AssertionError when the post is not a recognised tweet type. The code has no such check; it only unwraps envelopes, and the model follows the code.
- `Posts.PostAttrDocumented` takes the first value that is not a dict, so a JSON `null` note text wins over a present legacy text. The docstring's "if available" could also be read as falling back in that case; this model does not take that reading.
- `Posts.GetPostAttr` and `Posts.GetPostAttrs` follow the code, not the docstring, for "text": it is asserted like any other attribute (see "## Findings"; the documented behaviour is `Posts.PostAttrDocumented`).

## Findings

| source | as written | input that shows it | evidently intended | confidence | as-written member | corrected member |
|---|---|---|---|---|---|---|
| src/isaacutils/mail.py:101-106 | `emit` holds `batch_lock` (a non-reentrant `threading.Lock`) while it calls `_send_batch`, and `_send_batch` acquires the same lock again at line 116 | `EmailHandler(..., max_batch_size=1)` and one `logger.error(...)`: the first emit blocks forever | once the limit is reached, the batch is sent and `emit` returns, as the `max_batch_size` documentation says; `EmitStep` does this and is proved to lose no record and to keep the queue below the limit | not executed | Mail.FirstEmitDeadlocks | Mail.EmitStep |
| src/isaacutils/posts.py:49 | `assert len(set(_values)) == 1` runs for every attribute, "text" included, although the docstring (lines 12-13, 25-26) says "text" returns the note text if available, falls back to the legacy text, and is exempt from the assertion | a post with `note_tweet.note_tweet_results.result.text` = "long text" and `legacy.full_text` = "long" under a table giving "text" those two paths: AssertionError | "text" is the first candidate value found (note text, else legacy text), with no assertion; `PostAttrDocumented` does this, and `NoteTextPreferred`, `LegacyTextFallback` and `DocumentedTextIsFirstLeaf` prove it | not executed | Posts.TextConflict | Posts.PostAttrDocumented |
