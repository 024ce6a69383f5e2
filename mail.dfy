/** The alerting half of `isaacutils.mail`: the batching logging handler
    `EmailHandler` and the pure pieces the e-mail is built from (recipient
    header, subject, HTML structure, escaping).

    The transport (SMTP session, STARTTLS, login, `send_message`), the
    password file, the background thread and the lock are not modelled: a
    batch handed to the background send is appended to the ghost log `sent`,
    and `SendEmailBatch` returns the message that send would submit. */
module Mail {
  import opened Text

  datatype Option<T> = None | Some(value: T)

  /** The fields of a `logging.LogRecord` the handler reads. `message` is
      `record.getMessage()`; `excText` is the text
      `traceback.format_exception(*record.exc_info)` joins to, present exactly
      when `exc_info` is set. */
  datatype Record = Record(
    levelName: string,
    message: string,
    created: real,
    pathname: string,
    lineno: nat,
    funcName: string,
    excText: Option<string>)

  /** `to_addr`: a single address or a list of addresses. */
  datatype Recipients = One(addr: string) | Many(addrs: seq<string>)

  /** `msg["To"] = to_addr if isinstance(to_addr, str) else ", ".join(to_addr)`. */
  function ToHeader(to: Recipients): string
  {
    match to
    case One(a) => a
    case Many(xs) => Join(xs, ", ")
  }

  /** Each string with one leading space removed, if it has one. */
  function Unspaced(xs: seq<string>): seq<string>
    decreases |xs|
  {
    if |xs| == 0 then []
    else [if |xs[0]| > 0 && xs[0][0] == ' ' then xs[0][1..] else xs[0]] + Unspaced(xs[1..])
  }

  /** Reading a list of addresses back out of a `To` header. */
  function ParseHeader(h: string): seq<string>
  {
    var parts := Split(h, ',');
    [parts[0]] + Unspaced(parts[1..])
  }

  lemma {:induction false} UnspacedPrefixed(xs: seq<string>)
    ensures Unspaced(Prefixed(xs, " ")) == xs
    decreases |xs|
  {
    if |xs| > 0 {
      UnspacedPrefixed(xs[1..]);
      var y := " " + xs[0];
      assert y[1..] == xs[0];
    }
  }

  /** A list of comma-free addresses can be read back from its header: no
      address is lost, duplicated or reordered. */
  lemma HeaderRoundTrip(addrs: seq<string>)
    requires |addrs| >= 1
    requires forall i :: 0 <= i < |addrs| ==> ',' !in addrs[i]
    ensures ParseHeader(ToHeader(Many(addrs))) == addrs
  {
    assert [','] + " " == ", ";
    SplitJoin(addrs, ',', " ");
    UnspacedPrefixed(addrs[1..]);
  }

  /** A one-element list and the bare string give the same header. */
  lemma HeaderSingle(a: string)
    ensures ToHeader(Many([a])) == ToHeader(One(a))
  {
  }

  /** The character of a decimal digit. */
  function DigitChar(d: nat): char
    requires d < 10
  {
    ((48 + d) as char)
  }

  /** The value of a decimal digit character (0 for any other character). */
  function DigitValue(c: char): nat
  {
    if '0' <= c <= '9' then (c as int) - 48 else 0
  }

  /** Python's `str(n)` for a natural number. */
  function NatToString(n: nat): string
    decreases n
  {
    if n < 10 then [DigitChar(n)] else NatToString(n / 10) + [DigitChar(n % 10)]
  }

  /** Decimal reading of a string of digits. */
  function ParseNat(s: string): nat
    decreases |s|
  {
    if |s| == 0 then 0 else ParseNat(s[..|s| - 1]) * 10 + DigitValue(s[|s| - 1])
  }

  /** The form of Python's `str(n)`: one or more digits, with no leading
      zero unless the number is 0 itself. */
  predicate Decimal(s: string)
  {
    && |s| >= 1
    && (forall i :: 0 <= i < |s| ==> '0' <= s[i] <= '9')
    && (|s| > 1 ==> s[0] != '0')
  }

  lemma {:induction false} NatToStringDecimal(n: nat)
    ensures Decimal(NatToString(n))
    decreases n
  {
    if n >= 10 {
      NatToStringDecimal(n / 10);
      var s := NatToString(n);
      assert s[..|s| - 1] == NatToString(n / 10);
      assert forall i :: 0 <= i < |s| - 1 ==> s[i] == NatToString(n / 10)[i];
    }
  }

  /** A decimal string with a non-zero first digit reads as a positive number. */
  lemma {:induction false} LeadingDigitPositive(s: string)
    requires Decimal(s) && s[0] != '0'
    ensures ParseNat(s) >= 1
    decreases |s|
  {
    if |s| > 1 {
      var init := s[..|s| - 1];
      assert Decimal(init) by {
        assert forall i :: 0 <= i < |init| ==> init[i] == s[i];
      }
      LeadingDigitPositive(init);
    }
  }

  /** A decimal string is the rendering of the number it reads as, so the
      rendering is the only decimal string for its number. */
  lemma {:induction false} DecimalCanonical(s: string)
    requires Decimal(s)
    ensures NatToString(ParseNat(s)) == s
    decreases |s|
  {
    var d := DigitValue(s[|s| - 1]);
    if |s| == 1 {
      assert ParseNat(s[..0]) == 0;
      assert [DigitChar(d)] == s;
    } else {
      var init := s[..|s| - 1];
      assert Decimal(init) by {
        assert forall i :: 0 <= i < |init| ==> init[i] == s[i];
      }
      DecimalCanonical(init);
      LeadingDigitPositive(init);
      var n := ParseNat(s);
      assert n == ParseNat(init) * 10 + d;
      DivMod(n, ParseNat(init), d, 10);
      assert s == init + [DigitChar(d)];
    }
  }

  lemma {:induction false} NatStringRoundTrip(n: nat)
    ensures ParseNat(NatToString(n)) == n
    decreases n
  {
    if n >= 10 {
      NatStringRoundTrip(n / 10);
      var s := NatToString(n);
      assert s[..|s| - 1] == NatToString(n / 10);
    }
  }

  const Occurred: string := " errors occurred"

  /** The subject `_send_email_batch` picks for a batch. */
  function Subject(prefix: string, records: seq<Record>): (s: string)
    ensures |s| > |prefix| && s[..|prefix| + 1] == prefix + " "
  {
    if |records| == 1 then prefix + " " + records[0].levelName + ": " + records[0].message
    else prefix + " " + NatToString(|records|) + Occurred
  }

  /** The subject starts with the prefix; a one-record batch names the
      record's level and ends with its message, any other batch states the
      number of records, which can be read back from the subject. */
  lemma SubjectNamesBatch(prefix: string, records: seq<Record>)
    ensures var s := Subject(prefix, records);
            |s| > |prefix| && s[..|prefix| + 1] == prefix + " "
    ensures |records| == 1 ==>
              var s, r := Subject(prefix, records), records[0];
              |s| == |prefix| + 1 + |r.levelName| + 2 + |r.message|
              && s[|prefix| + 1..|prefix| + 1 + |r.levelName| + 2] == r.levelName + ": "
              && s[|s| - |r.message|..] == r.message
    ensures |records| != 1 ==>
              var s := Subject(prefix, records);
              |s| >= |prefix| + 1 + |Occurred|
              && s[|s| - |Occurred|..] == Occurred
              && Decimal(s[|prefix| + 1..|s| - |Occurred|])
              && ParseNat(s[|prefix| + 1..|s| - |Occurred|]) == |records|
  {
    var s := Subject(prefix, records);
    if |records| == 1 {
      var r := records[0];
      assert s == (prefix + " ") + (r.levelName + ": ") + r.message;
    } else {
      var n := NatToString(|records|);
      assert s == (prefix + " ") + n + Occurred;
      assert s[|prefix| + 1..|s| - |Occurred|] == n;
      NatToStringDecimal(|records|);
      NatStringRoundTrip(|records|);
    }
  }

  const Critical: string := "CRITICAL"

  /** The structural parts of the HTML body: the summary block of a batch of
      several records, and one block per record. An entry's header reads
      "Error <number> - <level>: <message>" when it carries a number and
      "<level>: <message>" otherwise; its location line reads
      "<pathname>:<lineno> in <funcName>()". */
  datatype Block =
    | Summary(count: nat, firstTime: string, lastTime: string)
    | Entry(containerClass: string, headerClass: string, number: Option<nat>,
            levelName: string, message: string, time: string,
            pathname: string, lineno: nat, funcName: string, trace: Option<string>)

  /** Block `b` shows record `r` as record number `number` of a batch that
      has several records (`multi`) or one: critical classes exactly for the
      CRITICAL level, the number only in a batch of several, the message as
      it is, and a stack trace exactly when the record carries one, passed
      through `EscapeHtml`, so that it contains no raw `<`, `>`, `"`, `'` and
      decodes back to the original text. */
  ghost predicate Shows(b: Block, r: Record, number: nat, multi: bool, formatTime: real -> string)
  {
    && b.Entry?
    && (b.containerClass == "critical-container" <==> r.levelName == Critical)
    && (b.containerClass == "error-container" <==> r.levelName != Critical)
    && (b.headerClass == "critical-header" <==> r.levelName == Critical)
    && (b.headerClass == "error-header" <==> r.levelName != Critical)
    && (b.number.Some? <==> multi)
    && (multi ==> b.number.value == number)
    && b.levelName == r.levelName && b.message == r.message
    && b.time == formatTime(r.created)
    && b.pathname == r.pathname && b.lineno == r.lineno && b.funcName == r.funcName
    && (b.trace.Some? <==> r.excText.Some?)
    && (b.trace.Some? ==> b.trace.value == EscapeHtml(r.excText.value))
    && (b.trace.Some? ==>
          && Unescape(b.trace.value) == r.excText.value
          && '<' !in b.trace.value && '>' !in b.trace.value
          && '"' !in b.trace.value && '\'' !in b.trace.value)
  }

  /** `body` is the structure `_format_html_batch` gives `records`: a summary
      block first exactly when there are several records (with their count
      and the times of the first and last), then the records in order,
      numbered from 1. */
  ghost predicate FormatsBatch(body: seq<Block>, records: seq<Record>, formatTime: real -> string)
  {
    var multi := |records| > 1;
    var off := if multi then 1 else 0;
    && |body| == |records| + off
    && (multi <==> (|body| > 0 && body[0].Summary?))
    && (multi ==> body[0] == Summary(|records|, formatTime(records[0].created),
                                     formatTime(records[|records| - 1].created)))
    && ShowEach(body[off..], records, multi, formatTime)
  }

  /** Block `k` shows record `k` as number `k + 1`, for every record. */
  ghost predicate ShowEach(blocks: seq<Block>, records: seq<Record>, multi: bool, formatTime: real -> string)
    requires |blocks| == |records|
  {
    forall k :: 0 <= k < |records| ==> Shows(blocks[k], records[k], k + 1, multi, formatTime)
  }

  /** The block of one record: CRITICAL gets the critical classes, every
      other level the error ones; the trace is escaped. */
  function RecordBlock(r: Record, number: nat, multi: bool, formatTime: real -> string): Block
  {
    var critical := r.levelName == Critical;
    var trace := if r.excText.None? then None else Some(EscapeHtml(r.excText.value));
    Entry(if critical then "critical-container" else "error-container",
          if critical then "critical-header" else "error-header",
          if multi then Some(number) else None,
          r.levelName, r.message, formatTime(r.created),
          r.pathname, r.lineno, r.funcName, trace)
  }

  lemma RecordBlockShows(r: Record, number: nat, multi: bool, formatTime: real -> string)
    ensures Shows(RecordBlock(r, number, multi, formatTime), r, number, multi, formatTime)
  {
    if r.excText.Some? {
      EscapeRoundTrip(r.excText.value);
      EscapeHtmlSafe(r.excText.value);
    }
  }

  /** The blocks `render` gives the records of `rs`, numbered from 1. */
  function Entries(rs: seq<Record>, render: (Record, nat) -> Block): seq<Block>
    decreases |rs|
  {
    if |rs| == 0 then [] else Entries(rs[..|rs| - 1], render) + [render(rs[|rs| - 1], |rs|)]
  }

  /** Block `k` of `Entries(rs, render)` renders record `k` as number `k + 1`. */
  lemma {:induction false} EntriesAt(rs: seq<Record>, render: (Record, nat) -> Block)
    ensures |Entries(rs, render)| == |rs|
    ensures forall k :: 0 <= k < |rs| ==> Entries(rs, render)[k] == render(rs[k], k + 1)
    decreases |rs|
  {
    if |rs| > 0 {
      var init := rs[..|rs| - 1];
      EntriesAt(init, render);
      assert forall k :: 0 <= k < |init| ==> rs[k] == init[k];
    }
  }

  /** `_format_html_batch`, block by block; `formatTime` stands for
      `_format_time` (local-time formatting of a timestamp). */
  method FormatHtmlBatch(records: seq<Record>, formatTime: real -> string) returns (body: seq<Block>)
    ensures FormatsBatch(body, records, formatTime)
  {
    var multi := |records| > 1;
    var render := (r: Record, number: nat) => RecordBlock(r, number, multi, formatTime);
    var entries := [];
    for i := 0 to |records|
      invariant entries == Entries(records[..i], render)
    {
      assert records[..i + 1][..i] == records[..i];
      entries := entries + [RecordBlock(records[i], i + 1, multi, formatTime)];
    }
    assert records[..|records|] == records;
    EntriesAt(records, render);
    if multi {
      body := [Summary(|records|, formatTime(records[0].created),
                       formatTime(records[|records| - 1].created))] + entries;
    } else {
      body := entries;
    }
    BlocksShow(entries, records, multi, formatTime);
    var off := if multi then 1 else 0;
    assert body[off..] == entries;
  }

  /** Blocks rendered by `RecordBlock` show their records. */
  lemma BlocksShow(blocks: seq<Block>, records: seq<Record>, multi: bool, formatTime: real -> string)
    requires |blocks| == |records|
    requires forall k :: 0 <= k < |records| ==> blocks[k] == RecordBlock(records[k], k + 1, multi, formatTime)
    ensures ShowEach(blocks, records, multi, formatTime)
  {
    forall k | 0 <= k < |records|
      ensures Shows(blocks[k], records[k], k + 1, multi, formatTime)
    {
      RecordBlockShows(records[k], k + 1, multi, formatTime);
    }
  }

  /** One e-mail as `send_html_alert` would submit it. */
  datatype Alert = Alert(fromAddr: string, to: string, subject: string, body: seq<Block>)

  // ---------------------------------------------------------------------
  // The batching state machine, as functions of the pending queue and the
  // log of batches handed to the background send.

  /** The pending error queue and the batches sent so far, oldest first. */
  datatype Pending = Pending(queue: seq<Record>, sent: seq<seq<Record>>)

  /** `max_batch_size` is truthy: neither None nor 0. */
  predicate Truthy(limit: Option<int>)
  {
    limit.Some? && limit.value != 0
  }

  /** `self.max_batch_size and len(self.error_queue) >= self.max_batch_size`. */
  predicate LimitReached(limit: Option<int>, length: nat)
  {
    Truthy(limit) && length >= limit.value
  }

  /** All the records of a list of batches, in order. */
  function Flatten(batches: seq<seq<Record>>): seq<Record>
    decreases |batches|
  {
    if |batches| == 0 then [] else Flatten(batches[..|batches| - 1]) + batches[|batches| - 1]
  }

  /** Every record the handler has accepted: those sent, then those pending. */
  function Accepted(p: Pending): seq<Record>
  {
    Flatten(p.sent) + p.queue
  }

  /** `_send_batch`: an empty queue sends nothing; otherwise the whole queue
      goes out as one batch. Either way nothing is left pending and the
      batches already sent stay as they were. */
  function SendStep(p: Pending): (r: Pending)
    ensures r.queue == []
    ensures |r.sent| >= |p.sent| && r.sent[..|p.sent|] == p.sent
    ensures p.queue == [] ==> r == p
    ensures p.queue != [] ==> |r.sent| == |p.sent| + 1 && r.sent[|p.sent|] == p.queue
  {
    if p.queue == [] then p else Pending([], p.sent + [p.queue])
  }

  /** `emit` as the documentation promises it (see the finding on
      `EmitAsWritten`): append the record; when a truthy limit is reached,
      send the whole queue at once. With a falsy limit nothing is ever sent;
      with a positive limit fewer than that many records stay pending. */
  function EmitStep(p: Pending, rec: Record, limit: Option<int>): (r: Pending)
    ensures !Truthy(limit) ==> r == Pending(p.queue + [rec], p.sent)
    ensures Truthy(limit) && limit.value > 0 ==> |r.queue| < limit.value
    ensures Truthy(limit) && limit.value < 0 ==> r.queue == []
  {
    var q := p.queue + [rec];
    if LimitReached(limit, |q|) then SendStep(Pending(q, p.sent)) else Pending(q, p.sent)
  }

  /** `flush` (and `close`): send only if something is pending; afterwards
      nothing is pending. */
  function FlushStep(p: Pending): (r: Pending)
    ensures r.queue == []
    ensures |r.sent| >= |p.sent| && r.sent[..|p.sent|] == p.sent
    ensures p.queue == [] ==> r == p
    ensures p.queue != [] ==> |r.sent| == |p.sent| + 1 && r.sent[|p.sent|] == p.queue
  {
    if p.queue != [] then SendStep(p) else p
  }

  /** Flattening a batch put at the end. */
  lemma FlattenSnoc(bs: seq<seq<Record>>, b: seq<Record>)
    ensures Flatten(bs + [b]) == Flatten(bs) + b
  {
    assert (bs + [b])[..|bs|] == bs;
  }

  /** An emit loses, duplicates or reorders no record: the records sent and
      pending are those emitted, in emission order. */
  lemma EmitLosesNothing(p: Pending, rec: Record, limit: Option<int>)
    ensures Accepted(EmitStep(p, rec, limit)) == Accepted(p) + [rec]
  {
    var q := p.queue + [rec];
    FlattenSnoc(p.sent, q);
    AppendAssoc(Flatten(p.sent), p.queue, [rec]);
    assert q + [] == q;
  }

  /** Sending and flushing move pending records to the sent batches without
      losing, duplicating or reordering any. */
  lemma SendLosesNothing(p: Pending)
    ensures Accepted(SendStep(p)) == Accepted(p)
    ensures Accepted(FlushStep(p)) == Accepted(p)
  {
    FlattenSnoc(p.sent, p.queue);
    assert p.queue + [] == p.queue;
  }

  /** The handler's invariant: no empty batch is ever sent; with a positive
      limit no batch exceeds it and the queue stays below it; with a
      negative (truthy) limit every emit sends, so nothing stays queued. */
  predicate Inv(p: Pending, limit: Option<int>)
  {
    && (forall i :: 0 <= i < |p.sent| ==> p.sent[i] != [])
    && (Truthy(limit) && limit.value > 0 ==>
          |p.queue| < limit.value && forall i :: 0 <= i < |p.sent| ==> |p.sent[i]| <= limit.value)
    && (Truthy(limit) && limit.value < 0 ==> p.queue == [])
  }

  /** Adding one batch keeps the conditions on the sent batches. */
  lemma SentGrows(p: Pending, b: seq<Record>, limit: Option<int>)
    requires Inv(p, limit) && b != []
    requires Truthy(limit) && limit.value > 0 ==> |b| <= limit.value
    ensures Inv(Pending([], p.sent + [b]), limit)
  {
    var s := p.sent + [b];
    assert forall i :: 0 <= i < |p.sent| ==> s[i] == p.sent[i];
    assert s[|p.sent|] == b;
  }

  lemma EmitKeepsInv(p: Pending, rec: Record, limit: Option<int>)
    requires Inv(p, limit)
    ensures Inv(EmitStep(p, rec, limit), limit)
  {
    var q := p.queue + [rec];
    if LimitReached(limit, |q|) {
      SentGrows(p, q, limit);
    }
  }

  lemma SendKeepsInv(p: Pending, limit: Option<int>)
    requires Inv(p, limit)
    ensures Inv(SendStep(p), limit) && Inv(FlushStep(p), limit)
  {
    if p.queue != [] {
      SentGrows(p, p.queue, limit);
    }
  }

  /** Many emits in a row. */
  function EmitAll(p: Pending, recs: seq<Record>, limit: Option<int>): Pending
    decreases |recs|
  {
    if |recs| == 0 then p else EmitAll(EmitStep(p, recs[0], limit), recs[1..], limit)
  }

  /** The full batches of `n` records that a sequence splits into. */
  function Chunks(s: seq<Record>, n: nat): seq<seq<Record>>
    requires n > 0
    decreases |s|
  {
    if |s| < n then [] else [s[..n]] + Chunks(s[n..], n)
  }

  /** What is left over after the full batches. */
  function Leftover(s: seq<Record>, n: nat): seq<Record>
    requires n > 0
    decreases |s|
  {
    if |s| < n then s else Leftover(s[n..], n)
  }

  /** Each full batch has exactly `n` records and fewer than `n` are left
      over. */
  lemma {:induction false} ChunksSized(s: seq<Record>, n: nat)
    requires n > 0
    ensures forall i :: 0 <= i < |Chunks(s, n)| ==> |Chunks(s, n)[i]| == n
    ensures |Leftover(s, n)| < n
    decreases |s|
  {
    if |s| >= n {
      ChunksSized(s[n..], n);
      var c := Chunks(s[n..], n);
      assert forall i :: 1 <= i < |Chunks(s, n)| ==> Chunks(s, n)[i] == c[i - 1];
    }
  }

  /** The full batches and the leftover, in order, are the sequence again. */
  lemma {:induction false} ChunksPartition(s: seq<Record>, n: nat)
    requires n > 0
    ensures Flatten(Chunks(s, n)) + Leftover(s, n) == s
    decreases |s|
  {
    if |s| >= n {
      ChunksPartition(s[n..], n);
      FlattenCons(s[..n], Chunks(s[n..], n));
      AppendAssoc(s[..n], Flatten(Chunks(s[n..], n)), Leftover(s[n..], n));
      assert s == s[..n] + s[n..];
    }
  }

  /** `|Chunks(s, n)|` and `|Leftover(s, n)|` are the quotient and the
      remainder of `|s|` by `n`. */
  lemma {:induction false} ChunksCount(s: seq<Record>, n: nat)
    requires n > 0
    ensures |Chunks(s, n)| * n + |Leftover(s, n)| == |s|
    decreases |s|
  {
    if |s| >= n {
      ChunksCount(s[n..], n);
      var c := |Chunks(s[n..], n)|;
      assert (c + 1) * n == c * n + n;
    }
  }

  /** Flattening a batch put in front. */
  lemma {:induction false} FlattenCons(b: seq<Record>, bs: seq<seq<Record>>)
    ensures Flatten([b] + bs) == b + Flatten(bs)
    decreases |bs|
  {
    if |bs| > 0 {
      var all := [b] + bs;
      assert all[..|all| - 1] == [b] + bs[..|bs| - 1];
      FlattenCons(b, bs[..|bs| - 1]);
    } else {
      assert [b] + bs == [b];
      assert [b][..0] == [];
    }
  }

  /** With no (falsy) limit, emits never send, however many records come. */
  lemma {:induction false} EmitAllUnlimited(p: Pending, recs: seq<Record>, limit: Option<int>)
    requires !Truthy(limit)
    ensures EmitAll(p, recs, limit) == Pending(p.queue + recs, p.sent)
    decreases |recs|
  {
    if |recs| > 0 {
      EmitAllUnlimited(EmitStep(p, recs[0], limit), recs[1..], limit);
      assert p.queue + [recs[0]] + recs[1..] == p.queue + recs;
    } else {
      assert p.queue + recs == p.queue;
    }
  }

  /** With a positive limit `n`, emits send the pending records and the new
      ones in full batches of `n`, in order, and keep the rest queued. */
  lemma {:induction false} EmitAllBatches(p: Pending, recs: seq<Record>, limit: Option<int>)
    requires Truthy(limit) && limit.value > 0 && |p.queue| < limit.value
    ensures EmitAll(p, recs, limit)
            == Pending(Leftover(p.queue + recs, limit.value), p.sent + Chunks(p.queue + recs, limit.value))
    decreases |recs|
  {
    var n := limit.value;
    if |recs| == 0 {
      assert p.queue + recs == p.queue;
      assert p.sent + [] == p.sent;
    } else {
      var q := p.queue + [recs[0]];
      var rest := recs[1..];
      assert p.queue + recs == q + rest;
      var next := EmitStep(p, recs[0], limit);
      EmitAllBatches(next, rest, limit);
      if |q| >= n {
        assert |q| == n;
        var all := q + rest;
        assert all[..n] == q && all[n..] == rest;
        assert [] + rest == rest;
        assert p.sent + [q] + Chunks(rest, n) == p.sent + Chunks(all, n);
      }
    }
  }

  /** From an empty queue, N records under a limit L > 0 send exactly
      N / L batches of L records each and leave N % L records queued; a
      flush then sends that remainder, if any. */
  lemma BatchesOfLimit(sent: seq<seq<Record>>, recs: seq<Record>, limit: Option<int>)
    requires Truthy(limit) && limit.value > 0
    ensures var r := EmitAll(Pending([], sent), recs, limit);
            && r.sent == sent + Chunks(recs, limit.value)
            && |r.sent| - |sent| == |recs| / limit.value
            && (forall i :: |sent| <= i < |r.sent| ==> |r.sent[i]| == limit.value)
            && |r.queue| == |recs| % limit.value
            && Accepted(FlushStep(r)) == Flatten(sent) + recs
  {
    assert [] + recs == recs;
    EmitAllBatches(Pending([], sent), recs, limit);
    BatchSizes(sent, recs, limit.value);
    BatchesFlushed(sent, recs, limit.value);
  }

  /** The batch sizes `BatchesOfLimit` states. */
  lemma BatchSizes(sent: seq<seq<Record>>, recs: seq<Record>, n: nat)
    requires n > 0
    ensures |sent + Chunks(recs, n)| - |sent| == |recs| / n
    ensures forall i :: |sent| <= i < |sent + Chunks(recs, n)| ==> |(sent + Chunks(recs, n))[i]| == n
    ensures |Leftover(recs, n)| == |recs| % n
  {
    var c := Chunks(recs, n);
    ChunksSized(recs, n);
    ChunksQuotient(recs, n);
    assert forall i :: |sent| <= i < |sent + c| ==> (sent + c)[i] == c[i - |sent|];
  }

  /** After the batches, a flush leaves every record sent, in order. */
  lemma BatchesFlushed(sent: seq<seq<Record>>, recs: seq<Record>, n: nat)
    requires n > 0
    ensures Accepted(FlushStep(Pending(Leftover(recs, n), sent + Chunks(recs, n)))) == Flatten(sent) + recs
  {
    var c := Chunks(recs, n);
    var left := Leftover(recs, n);
    var r := Pending(left, sent + c);
    SendLosesNothing(r);
    ChunksPartition(recs, n);
    FlattenAppend(sent, c);
    AppendAssoc(Flatten(sent), Flatten(c), left);
  }

  lemma AppendAssoc(a: seq<Record>, b: seq<Record>, c: seq<Record>)
    ensures (a + b) + c == a + (b + c)
  {
  }

  /** The number of full batches is the quotient, the leftover the remainder. */
  lemma ChunksQuotient(s: seq<Record>, n: nat)
    requires n > 0
    ensures |Chunks(s, n)| == |s| / n && |Leftover(s, n)| == |s| % n
  {
    ChunksSized(s, n);
    ChunksCount(s, n);
    DivMod(|s|, |Chunks(s, n)|, |Leftover(s, n)|, n);
  }

  lemma {:induction false} MulAtLeast(d: nat, n: nat)
    requires d >= 1
    ensures d * n >= n
    decreases d
  {
    if d > 1 {
      MulAtLeast(d - 1, n);
      assert d * n == (d - 1) * n + n;
    }
  }

  /** Quotient and remainder are unique. */
  lemma {:induction false} DivMod(total: nat, q: nat, m: nat, n: nat)
    requires n > 0 && m < n && total == q * n + m
    ensures total / n == q && total % n == m
  {
    var q2, m2 := total / n, total % n;
    assert total == q2 * n + m2;
    if q > q2 {
      assert (q - q2) * n == q * n - q2 * n;
      MulAtLeast(q - q2, n);
      assert false;
    } else if q2 > q {
      assert (q2 - q) * n == q2 * n - q * n;
      MulAtLeast(q2 - q, n);
      assert false;
    }
  }

  lemma {:induction false} FlattenAppend(a: seq<seq<Record>>, b: seq<seq<Record>>)
    ensures Flatten(a + b) == Flatten(a) + Flatten(b)
    decreases |b|
  {
    if |b| == 0 {
      assert a + b == a;
    } else {
      var init := b[..|b| - 1];
      FlattenAppend(a, init);
      assert (a + b)[..|a + b| - 1] == a + init;
      assert (a + b)[|a + b| - 1] == b[|b| - 1];
    }
  }

  // ---------------------------------------------------------------------
  // The source as written: `emit` holds the non-reentrant `batch_lock`
  // while it calls `_send_batch`, which takes the same lock again.

  /** The pending state together with whether `batch_lock` is held. */
  datatype Locked = Locked(held: bool, p: Pending)

  /** How a call ends: with a new state, or blocked forever on the lock. */
  datatype Outcome = Done(s: Locked) | Deadlock

  /** `_send_batch` as written: it first acquires `batch_lock`. */
  function SendBatchAsWritten(s: Locked): Outcome
  {
    if s.held then Deadlock else Done(Locked(false, SendStep(s.p)))
  }

  /** `emit` as written: append under the lock and, when the limit is
      reached, call `_send_batch` while still holding it. */
  function EmitAsWritten(s: Locked, rec: Record, limit: Option<int>): Outcome
  {
    if s.held then Deadlock
    else
      var q := s.p.queue + [rec];
      if LimitReached(limit, |q|) then
        match SendBatchAsWritten(Locked(true, Pending(q, s.p.sent)))
        case Deadlock => Deadlock
        case Done(t) => Done(Locked(false, t.p))
      else Done(Locked(false, Pending(q, s.p.sent)))
  }

  /** As written, an emit that reaches the limit never returns; every other
      emit behaves as documented. */
  lemma EmitAsWrittenDeadlocks(s: Locked, rec: Record, limit: Option<int>)
    requires !s.held
    ensures LimitReached(limit, |s.p.queue| + 1) ==> EmitAsWritten(s, rec, limit) == Deadlock
    ensures !LimitReached(limit, |s.p.queue| + 1) ==>
              EmitAsWritten(s, rec, limit) == Done(Locked(false, EmitStep(s.p, rec, limit)))
  {
  }

  /** The smallest witness: `max_batch_size=1`, first record. */
  lemma FirstEmitDeadlocks(rec: Record)
    ensures EmitAsWritten(Locked(false, Pending([], [])), rec, Some(1)) == Deadlock
  {
    EmitAsWrittenDeadlocks(Locked(false, Pending([], [])), rec, Some(1));
  }

  // ---------------------------------------------------------------------

  /** `EmailHandler`: the pending queue is a field that `emit` appends to and
      `_send_batch` detaches and clears; `sent` logs the batches handed to
      the background send. */
  class EmailHandler {
    const fromAddr: string
    const toAddr: Recipients
    const subjectPrefix: string
    const maxBatchSize: Option<int>
    var errorQueue: seq<Record>
    ghost var sent: seq<seq<Record>>

    ghost function State(): Pending
      reads this
    {
      Pending(errorQueue, sent)
    }

    ghost predicate Valid()
      reads this
    {
      Inv(State(), maxBatchSize)
    }

    constructor (fromAddr: string, toAddr: Recipients, subjectPrefix: string, maxBatchSize: Option<int>)
      ensures Valid()
      ensures this.fromAddr == fromAddr && this.toAddr == toAddr
      ensures this.subjectPrefix == subjectPrefix && this.maxBatchSize == maxBatchSize
      ensures errorQueue == [] && sent == []
    {
      this.fromAddr := fromAddr;
      this.toAddr := toAddr;
      this.subjectPrefix := subjectPrefix;
      this.maxBatchSize := maxBatchSize;
      errorQueue := [];
      sent := [];
    }

    /** `emit`, as documented: the limit check sends at once. */
    method Emit(record: Record)
      requires Valid()
      modifies this
      ensures Valid()
      ensures State() == EmitStep(old(State()), record, maxBatchSize)
    {
      EmitKeepsInv(State(), record, maxBatchSize);
      errorQueue := errorQueue + [record];
      if Truthy(maxBatchSize) && |errorQueue| >= maxBatchSize.value {
        SendBatch();
      }
    }

    /** `_send_batch`: detach the queue and hand it to the background send. */
    method SendBatch()
      modifies this
      ensures State() == SendStep(old(State()))
    {
      if errorQueue == [] {
        return;
      }
      var records := errorQueue;
      errorQueue := [];
      sent := sent + [records];
    }

    /** `flush`: send only if something is pending. */
    method Flush()
      requires Valid()
      modifies this
      ensures Valid()
      ensures State() == FlushStep(old(State()))
    {
      SendKeepsInv(State(), maxBatchSize);
      if errorQueue != [] {
        SendBatch();
      }
    }

    /** `close`: flush, then the base handler's own closing. */
    method Close()
      requires Valid()
      modifies this
      ensures Valid()
      ensures State() == FlushStep(old(State()))
    {
      Flush();
    }

    /** `_send_email_batch`: the message the background send submits. */
    method SendEmailBatch(records: seq<Record>, formatTime: real -> string) returns (msg: Alert)
      ensures msg.fromAddr == fromAddr && msg.to == ToHeader(toAddr)
      ensures msg.subject == Subject(subjectPrefix, records)
      ensures FormatsBatch(msg.body, records, formatTime)
    {
      var subject := Subject(subjectPrefix, records);
      var body := FormatHtmlBatch(records, formatTime);
      msg := Alert(fromAddr, ToHeader(toAddr), subject, body);
    }
  }
}
