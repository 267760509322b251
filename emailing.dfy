/**
 * The notification processor of the mailbox watcher: it recognises a
 * "payment is scheduled" mail by its subject, normalises the text of its
 * body, takes the invoice number and the delivery estimate from the lines
 * after their labels, stamps the matching table row and answers in the
 * row's chat thread. The body starts as the plain text already extracted
 * from the mail's HTML.
 */
module Emailing {
  import opened Wrappers
  import opened Text
  import opened Decimal
  import opened Storage
  import opened SeqFacts

  const SUBJECT_FILTER_TEXT: string := "payment is scheduled for"
  const INVOICE_NUMBER_KEY: string := "Invoice number"
  const ETA_KEY: string := "Payment delivery ETA"

  /** `sub in s` on strings. */
  predicate Contains(s: string, sub: string)
  {
    sub <= s || (s != [] && Contains(s[1..], sub))
  }

  // ---------------------------------------------------------------------
  // `re.sub(r"\s*\n+\s*", "\n", text)`

  /** Length of the whitespace run at the start of `s`. */
  function SpaceRun(s: string): (k: nat)
    ensures k <= |s|
    ensures forall i :: 0 <= i < k ==> IsSpace(s[i])
    ensures k == |s| || !IsSpace(s[k])
  {
    if s == [] || !IsSpace(s[0]) then 0 else 1 + SpaceRun(s[1..])
  }

  /**
   * Every maximal whitespace run that contains a newline becomes a single
   * newline; other runs and all other characters stay as they are. (A regex
   * match attempted inside a run that has no newline fails, so the leftmost
   * match always spans a whole run.)
   */
  function Normalize(s: string): string
    decreases |s|
  {
    if s == [] then []
    else if IsSpace(s[0]) then
      var k := SpaceRun(s);
      (if '\n' in s[..k] then "\n" else s[..k]) + Normalize(s[k..])
    else [s[0]] + Normalize(s[1..])
  }

  /** No newline stands next to a whitespace character (so, in particular, no two newlines are adjacent). */
  predicate Tidy(r: string)
  {
    forall i, j :: 0 <= i < |r| && 0 <= j < |r| && j == i + 1 ==>
      !(r[i] == '\n' && IsSpace(r[j])) && !(IsSpace(r[i]) && r[j] == '\n')
  }

  /** The non-whitespace characters of a string, in order. */
  function Squeeze(s: string): string
  {
    if s == [] then [] else (if IsSpace(s[0]) then [] else [s[0]]) + Squeeze(s[1..])
  }

  lemma NormalizeStartsWith(s: string)
    requires s != [] && !IsSpace(s[0])
    ensures Normalize(s) != [] && Normalize(s)[0] == s[0]
  {
  }

  lemma {:induction false} TidyConcat(a: string, b: string)
    requires Tidy(a) && Tidy(b)
    requires a != [] && b != [] ==>
      !(a[|a| - 1] == '\n' && IsSpace(b[0])) && !(IsSpace(a[|a| - 1]) && b[0] == '\n')
    ensures Tidy(a + b)
  {
    var r := a + b;
    forall i, j | 0 <= i < |r| && 0 <= j < |r| && j == i + 1
      ensures !(r[i] == '\n' && IsSpace(r[j])) && !(IsSpace(r[i]) && r[j] == '\n')
    {
      if j < |a| {
        assert r[i] == a[i] && r[j] == a[j];
      } else if i >= |a| {
        assert r[i] == b[i - |a|] && r[j] == b[j - |a|];
      }
    }
  }

  /** After normalisation no newline is next to whitespace: runs around line breaks are gone. */
  lemma {:induction false} NormalizeIsTidy(s: string)
    ensures Tidy(Normalize(s))
    decreases |s|
  {
    if s == [] {
    } else if IsSpace(s[0]) {
      var k := SpaceRun(s);
      var rest := s[k..];
      NormalizeIsTidy(rest);
      if rest != [] {
        NormalizeStartsWith(rest);
      }
      var head: string := if '\n' in s[..k] then "\n" else s[..k];
      assert Tidy(head) by {
        if '\n' !in s[..k] {
          forall i | 0 <= i < |head| ensures head[i] != '\n' { assert head[i] in s[..k]; }
        }
      }
      TidyConcat(head, Normalize(rest));
    } else {
      NormalizeIsTidy(s[1..]);
      TidyConcat([s[0]], Normalize(s[1..]));
    }
  }

  /** `Normalize` never puts two newlines side by side. */
  lemma NoDoubleNewline(s: string, i: nat)
    requires i + 1 < |Normalize(s)|
    ensures !(Normalize(s)[i] == '\n' && Normalize(s)[i + 1] == '\n')
  {
    NormalizeIsTidy(s);
  }

  lemma {:induction false} SqueezeConcat(a: string, b: string)
    ensures Squeeze(a + b) == Squeeze(a) + Squeeze(b)
  {
    if a != [] {
      assert (a + b)[1..] == a[1..] + b;
      SqueezeConcat(a[1..], b);
    } else {
      assert a + b == b;
    }
  }

  lemma {:induction false} SqueezeOfSpaces(s: string)
    requires forall i :: 0 <= i < |s| ==> IsSpace(s[i])
    ensures Squeeze(s) == []
  {
    if s != [] {
      SqueezeOfSpaces(s[1..]);
    }
  }

  /** Normalisation keeps every non-whitespace character, in order. */
  lemma {:induction false} NormalizeKeepsText(s: string)
    ensures Squeeze(Normalize(s)) == Squeeze(s)
    decreases |s|
  {
    if s == [] {
    } else if IsSpace(s[0]) {
      var k := SpaceRun(s);
      var head: string := if '\n' in s[..k] then "\n" else s[..k];
      NormalizeKeepsText(s[k..]);
      SqueezeConcat(head, Normalize(s[k..]));
      SqueezeOfSpaces(head);
      SplitAt(s, k);
      SqueezeConcat(s[..k], s[k..]);
      SqueezeOfSpaces(s[..k]);
    } else {
      NormalizeKeepsText(s[1..]);
      SqueezeConcat([s[0]], Normalize(s[1..]));
    }
  }

  /** Text without any newline is left exactly as it is. */
  lemma {:induction false} NormalizeWithoutNewline(s: string)
    requires forall i :: 0 <= i < |s| ==> s[i] != '\n'
    ensures Normalize(s) == s
    decreases |s|
  {
    if s == [] {
    } else if IsSpace(s[0]) {
      var k := SpaceRun(s);
      assert '\n' !in s[..k] by {
        forall c | c in s[..k] ensures c != '\n' { }
      }
      NormalizeWithoutNewline(s[k..]);
      SplitAt(s, k);
    } else {
      NormalizeWithoutNewline(s[1..]);
      assert Normalize(s) == [s[0]] + Normalize(s[1..]);
    }
  }

  // ---------------------------------------------------------------------
  // Reading the invoice number and the estimate from the body

  /** The body's lines after normalisation: `text.split("\n")`. */
  function Lines(text: string): seq<string>
  {
    SplitOn(Normalize(text), '\n')
  }

  /** `i` is the first position of `lines` that holds `key`. */
  predicate FirstAt(lines: seq<string>, key: string, i: nat)
  {
    i < |lines| && lines[i] == key && forall j :: 0 <= j < i ==> lines[j] != key
  }

  lemma FirstAtUnique(lines: seq<string>, key: string, i: nat)
    requires FirstAt(lines, key, i)
    ensures forall k: nat :: FirstAt(lines, key, k) ==> k == i
  {
  }

  /** `lines.index(key)`; `None` stands for the `ValueError`. */
  function IndexOf(lines: seq<string>, key: string): (r: Option<nat>)
    ensures r.Some? ==> FirstAt(lines, key, r.value)
    ensures r.None? <==> key !in lines
  {
    if lines == [] then None
    else if lines[0] == key then Some(0)
    else match IndexOf(lines[1..], key)
      case None => None
      case Some(i) => Some(i + 1)
  }

  datatype Notice = Notice(invoice: int, eta: string)

  datatype NoticeError =
    | MissingLabel               // `ValueError` from `index`: the format changed
    | NothingAfterLabel          // `IndexError`: a label is the last line
    | NotAnInteger(line: string) // `ValueError` from `int`

  /**
   * The invoice number is the line after the first "Invoice number" line,
   * read as an integer; the estimate is the line after the first "Payment
   * delivery ETA" line, as it is.
   */
  function ParseNotice(text: string): (r: Result<Notice, NoticeError>)
    ensures var lines := Lines(text);
      && (r == Failure(MissingLabel) <==> INVOICE_NUMBER_KEY !in lines || ETA_KEY !in lines)
      && (r == Failure(NothingAfterLabel) <==>
            && INVOICE_NUMBER_KEY in lines && ETA_KEY in lines
            && exists i: nat :: (FirstAt(lines, INVOICE_NUMBER_KEY, i) || FirstAt(lines, ETA_KEY, i)) && i + 1 == |lines|)
      && (r.Failure? && r.error.NotAnInteger? ==> ParseInt(r.error.line).None?)
  {
    var lines := Lines(text);
    var inv := IndexOf(lines, INVOICE_NUMBER_KEY);
    var eta := IndexOf(lines, ETA_KEY);
    if inv.None? || eta.None? then Failure(MissingLabel)
    else if inv.value + 1 >= |lines| || eta.value + 1 >= |lines| then Failure(NothingAfterLabel)
    else
      var line := lines[inv.value + 1];
      match ParseInt(line)
      case None => Failure(NotAnInteger(line))
      case Some(n) => Success(Notice(n, lines[eta.value + 1]))
  }

  /**
   * What a successful or integer-failing parse read: the line after the
   * first invoice label and the line after the first estimate label.
   */
  lemma ParseNoticeFields(text: string, i: nat, j: nat)
    requires FirstAt(Lines(text), INVOICE_NUMBER_KEY, i) && FirstAt(Lines(text), ETA_KEY, j)
    ensures var lines, r := Lines(text), ParseNotice(text);
      && (r.Success? ==>
            && i + 1 < |lines| && j + 1 < |lines|
            && ParseInt(lines[i + 1]) == Some(r.value.invoice) && lines[j + 1] == r.value.eta)
      && (r.Failure? && r.error.NotAnInteger? ==> i + 1 < |lines| && lines[i + 1] == r.error.line)
      && (i + 1 < |lines| && j + 1 < |lines| && ParseInt(lines[i + 1]).Some? ==>
            r == Success(Notice(ParseInt(lines[i + 1]).value, lines[j + 1])))
  {
    var lines := Lines(text);
    FirstAtUnique(lines, INVOICE_NUMBER_KEY, IndexOf(lines, INVOICE_NUMBER_KEY).value);
    FirstAtUnique(lines, ETA_KEY, IndexOf(lines, ETA_KEY).value);
  }

  /**
   * An invoice line ending in the separator U+001C is not an integer to
   * `int`, so the notice is rejected even though `str.split` and the
   * `re.sub` treat that character as whitespace.
   */
  lemma SeparatorMakesInvoiceUnreadable(text: string, i: nat, j: nat)
    requires FirstAt(Lines(text), INVOICE_NUMBER_KEY, i) && FirstAt(Lines(text), ETA_KEY, j)
    requires i + 1 < |Lines(text)| && j + 1 < |Lines(text)| && Lines(text)[i + 1] == "5\U{1C}"
    ensures ParseNotice(text) == Failure(NotAnInteger("5\U{1C}"))
  {
    IntWhitespace();
    var lines := Lines(text);
    FirstAtUnique(lines, INVOICE_NUMBER_KEY, IndexOf(lines, INVOICE_NUMBER_KEY).value);
    FirstAtUnique(lines, ETA_KEY, IndexOf(lines, ETA_KEY).value);
  }

  // ---------------------------------------------------------------------
  // Finding the row

  /** The row records `invoice`. */
  predicate Matches(row: Row, invoice: int)
  {
    "invoice" in row && row["invoice"] == Num(invoice)
  }

  /** `i` is the last row that records `invoice`. */
  predicate LastMatch(items: seq<Row>, invoice: int, i: nat)
  {
    i < |items| && Matches(items[i], invoice) && forall k :: i < k < |items| ==> !Matches(items[k], invoice)
  }

  /** The row the search loop settles on: with no `break`, a later match replaces an earlier one. */
  function LastMatchIn(items: seq<Row>, invoice: int): (r: Option<nat>)
    ensures r.Some? ==> LastMatch(items, invoice, r.value)
    ensures r.None? <==> forall k :: 0 <= k < |items| ==> !Matches(items[k], invoice)
  {
    if items == [] then None
    else if Matches(items[|items| - 1], invoice) then Some(|items| - 1)
    else LastMatchIn(items[..|items| - 1], invoice)
  }

  /** One more row for the search: a match there takes over. */
  lemma LastMatchInSnoc(items: seq<Row>, invoice: int, i: nat)
    requires i < |items|
    ensures LastMatchIn(items[..i + 1], invoice)
         == if Matches(items[i], invoice) then Some(i) else LastMatchIn(items[..i], invoice)
  {
    assert items[..i + 1][..i] == items[..i];
  }

  /** `for r in table: if r["invoice"] == invoice_num: row = r` */
  method FindLast(table: PersistentTable, invoice: int) returns (r: Option<nat>)
    requires table.Valid() && "invoice" in table.fieldnames
    ensures r == LastMatchIn(table.items, invoice)
  {
    var items := table.items;
    r := None;
    var i := 0;
    while i < |items|
      invariant 0 <= i <= |items|
      invariant r == LastMatchIn(items[..i], invoice)
    {
      LastMatchInSnoc(items, invoice, i);
      if Matches(items[i], invoice) {
        r := Some(i);
      }
      i := i + 1;
    }
    assert items[..i] == items;
  }

  // ---------------------------------------------------------------------
  // One mail

  datatype Mail = Mail(subject: string, body: string)

  /** `chat_postMessage(channel=..., thread_ts=..., text=...)` */
  datatype Reply = Reply(channel: string, threadTs: Value, text: string)

  /** How `process_email` returns normally. */
  datatype Handled =
    | Unrelated                 // subject without the filter text
    | FormatChanged             // a key is missing
    | InvoiceUnreadable         // the invoice line is not an integer
    | UnknownInvoice(invoice: int)
    | Replied(reply: Reply)

  /** The exceptions that leave `process_email`. */
  datatype Crash = LabelIsLastLine | SaveFailed(cause: SyncError)

  function ReplyText(eta: string): string
  {
    "Your reimbursement has been processed. It should arrive in your account on " + eta + "."
  }

  /** What one mail does: its outcome, the rows afterwards and the file afterwards. */
  datatype Step = Step(result: Result<Handled, Crash>, items: seq<Row>, file: Option<seq<Record>>)

  /** Every row has the two fields `process_email` reads. */
  predicate Stampable(items: seq<Row>)
  {
    forall k :: 0 <= k < |items| ==> "slack_ts" in items[k] && "date_payment_sent" in items[k]
  }

  /** The rows with row `i`'s payment date set to `now`. */
  function Stamp(items: seq<Row>, i: nat, now: string): seq<Row>
    requires i < |items|
  {
    items[i := items[i]["date_payment_sent" := Time(now)]]
  }

  /**
   * `process_email` as a function of the rows and the file before it:
   * the row is stamped in memory before the table is synced, so a failed
   * save leaves the stamp in memory but not on disk.
   */
  function Handle(fieldnames: seq<string>, items: seq<Row>, file: Option<seq<Record>>,
                  mail: Mail, now: string, channel: string, fault: Fault): Step
    requires Stampable(items)
  {
    if !Contains(mail.subject, SUBJECT_FILTER_TEXT) then Step(Success(Unrelated), items, file)
    else match ParseNotice(mail.body)
      case Failure(MissingLabel) => Step(Success(FormatChanged), items, file)
      case Failure(NothingAfterLabel) => Step(Failure(LabelIsLastLine), items, file)
      case Failure(NotAnInteger(_)) => Step(Success(InvoiceUnreadable), items, file)
      case Success(n) => Settle(fieldnames, items, file, n, now, channel, fault)
  }

  /** The part of `process_email` under the table's lock, and the reply. */
  function Settle(fieldnames: seq<string>, items: seq<Row>, file: Option<seq<Record>>,
                  n: Notice, now: string, channel: string, fault: Fault): Step
    requires Stampable(items)
  {
    match LastMatchIn(items, n.invoice)
    case None => Step(Success(UnknownInvoice(n.invoice)), items, file)
    case Some(i) =>
      var stamped := Stamp(items, i, now);
      var saved := AfterSync(fault, fieldnames, stamped, file);
      if Completes(fault, |stamped|) then
        Step(Success(Replied(Reply(channel, items[i]["slack_ts"], ReplyText(n.eta)))), stamped, saved)
      else
        Step(Failure(SaveFailed(SyncFailure(fault))), stamped, saved)
  }

  /**
   * Settling a notice changes at most the last matching row; the file is
   * the new dump whenever a reply goes out, and otherwise changes only
   * when the close after the move fails, to a torn prefix of that dump.
   */
  lemma SettleChangesOneRow(fieldnames: seq<string>, items: seq<Row>, file: Option<seq<Record>>,
                            n: Notice, now: string, channel: string, fault: Fault)
    requires Stampable(items)
    ensures var st := Settle(fieldnames, items, file, n, now, channel, fault);
      && |st.items| == |items|
      && (st.items != items ==> exists i: nat :: LastMatch(items, n.invoice, i) && st.items == Stamp(items, i, now))
      && (st.result.Success? && st.result.value.Replied? ==> st.file == Some(Dump(fieldnames, st.items)))
      && (st.file != file ==>
            && st.file.Some? && st.file.value <= Dump(fieldnames, st.items)
            && ((st.result.Success? && st.result.value.Replied?) || st.result == Failure(SaveFailed(CloseFailed))))
      && Stampable(st.items)
  {
    var found := LastMatchIn(items, n.invoice);
    if found.Some? {
      var i := found.value;
      var stamped := Stamp(items, i, now);
      AfterSyncMeaning(fault, fieldnames, stamped, file);
      assert LastMatch(items, n.invoice, i);
      assert Stampable(stamped) by {
        forall k | 0 <= k < |stamped| ensures "slack_ts" in stamped[k] && "date_payment_sent" in stamped[k] {
          if k != i { assert stamped[k] == items[k]; }
        }
      }
    }
  }

  /**
   * A mail changes at most the payment date of one row: the last row that
   * records the mail's invoice number, and only when its subject matches
   * and its notice parses. The file is the new dump whenever a reply goes
   * out; otherwise it changes only when the close after the move fails.
   */
  lemma HandleChangesOneRow(fieldnames: seq<string>, items: seq<Row>, file: Option<seq<Record>>,
                            mail: Mail, now: string, channel: string, fault: Fault)
    requires Stampable(items)
    ensures var st := Handle(fieldnames, items, file, mail, now, channel, fault);
      && |st.items| == |items|
      && (st.items != items ==>
            && Contains(mail.subject, SUBJECT_FILTER_TEXT)
            && ParseNotice(mail.body).Success?
            && exists i: nat :: LastMatch(items, ParseNotice(mail.body).value.invoice, i) && st.items == Stamp(items, i, now))
      && (st.result.Success? && st.result.value.Replied? ==> st.file == Some(Dump(fieldnames, st.items)))
      && (st.file != file ==>
            && Contains(mail.subject, SUBJECT_FILTER_TEXT)
            && st.file.Some? && st.file.value <= Dump(fieldnames, st.items)
            && ((st.result.Success? && st.result.value.Replied?) || st.result == Failure(SaveFailed(CloseFailed))))
      && Stampable(st.items)
  {
    var notice := ParseNotice(mail.body);
    if Contains(mail.subject, SUBJECT_FILTER_TEXT) && notice.Success? {
      SettleChangesOneRow(fieldnames, items, file, notice.value, now, channel, fault);
    }
  }

  /** A reply from settling a notice names the thread of the last row with its invoice, which is now stamped. */
  lemma SettleReply(fieldnames: seq<string>, items: seq<Row>, file: Option<seq<Record>>,
                    n: Notice, now: string, channel: string, fault: Fault)
    requires Stampable(items)
    requires Settle(fieldnames, items, file, n, now, channel, fault).result.Success?
    requires Settle(fieldnames, items, file, n, now, channel, fault).result.value.Replied?
    ensures var st := Settle(fieldnames, items, file, n, now, channel, fault);
      var reply := st.result.value.reply;
      && reply.channel == channel
      && reply.text == ReplyText(n.eta)
      && exists i: nat ::
           && LastMatch(items, n.invoice, i)
           && reply.threadTs == items[i]["slack_ts"]
           && st.items[i]["date_payment_sent"] == Time(now)
           && st.items[i]["slack_ts"] == items[i]["slack_ts"]
  {
    var i := LastMatchIn(items, n.invoice).value;
    assert LastMatch(items, n.invoice, i);
    assert "slack_ts" != "date_payment_sent";
  }

  /**
   * The reply goes to the thread of the row whose invoice the mail names,
   * with the mail's estimate in its text; the row now carries the time.
   */
  lemma HandleReply(fieldnames: seq<string>, items: seq<Row>, file: Option<seq<Record>>,
                    mail: Mail, now: string, channel: string, fault: Fault)
    requires Stampable(items)
    requires Handle(fieldnames, items, file, mail, now, channel, fault).result.Success?
    requires Handle(fieldnames, items, file, mail, now, channel, fault).result.value.Replied?
    ensures var st := Handle(fieldnames, items, file, mail, now, channel, fault);
      var reply := st.result.value.reply;
      && Contains(mail.subject, SUBJECT_FILTER_TEXT)
      && ParseNotice(mail.body).Success?
      && reply.channel == channel
      && reply.text == ReplyText(ParseNotice(mail.body).value.eta)
      && exists i: nat ::
           && LastMatch(items, ParseNotice(mail.body).value.invoice, i)
           && reply.threadTs == items[i]["slack_ts"]
           && st.items[i]["date_payment_sent"] == Time(now)
           && st.items[i]["slack_ts"] == items[i]["slack_ts"]
  {
    var notice := ParseNotice(mail.body);
    assert Contains(mail.subject, SUBJECT_FILTER_TEXT) && notice.Success?;
    SettleReply(fieldnames, items, file, notice.value, now, channel, fault);
  }

  /**
   * `process_email`: the mail's outcome, the rows and the file afterwards
   * are those `Handle` gives.
   */
  method ProcessEmail(table: PersistentTable, mail: Mail, now: string, channel: string, fault: Fault)
    returns (r: Result<Handled, Crash>)
    requires table.Valid()
    requires "invoice" in table.fieldnames && "slack_ts" in table.fieldnames
    requires "date_payment_sent" in table.fieldnames
    modifies table, table.disk
    ensures table.Valid()
    ensures Step(r, table.items, table.disk.file)
         == Handle(table.fieldnames, old(table.items), old(table.disk.file), mail, now, channel, fault)
    ensures table.disk.tmp == old(table.disk.tmp) || table.disk.tmp == None
  {
    if !Contains(mail.subject, SUBJECT_FILTER_TEXT) {
      return Success(Unrelated);
    }
    var notice := ParseNotice(mail.body);
    match notice {
      case Failure(MissingLabel) => return Success(FormatChanged);
      case Failure(NothingAfterLabel) => return Failure(LabelIsLastLine);
      case Failure(NotAnInteger(_)) => return Success(InvoiceUnreadable);
      case Success(_) =>
    }
    r := StampAndReply(table, notice.value, now, channel, fault);
  }

  /** Settling once the row is found: the stamped rows, and the reply or the save error. */
  lemma SettleFound(fieldnames: seq<string>, items: seq<Row>, file: Option<seq<Record>>,
                    n: Notice, now: string, channel: string, fault: Fault, i: nat)
    requires Stampable(items) && LastMatchIn(items, n.invoice) == Some(i)
    ensures i < |items|
    ensures var stamped := Stamp(items, i, now);
      Settle(fieldnames, items, file, n, now, channel, fault)
      == if Completes(fault, |items|) then
           Step(Success(Replied(Reply(channel, items[i]["slack_ts"], ReplyText(n.eta)))),
                stamped, AfterSync(fault, fieldnames, stamped, file))
         else Step(Failure(SaveFailed(SyncFailure(fault))), stamped, AfterSync(fault, fieldnames, stamped, file))
  {
  }

  /** Finds the row, stamps it, syncs the table and builds the reply. */
  method StampAndReply(table: PersistentTable, n: Notice, now: string, channel: string, fault: Fault)
    returns (r: Result<Handled, Crash>)
    requires table.Valid()
    requires "invoice" in table.fieldnames && "slack_ts" in table.fieldnames
    requires "date_payment_sent" in table.fieldnames
    modifies table, table.disk
    ensures table.Valid()
    ensures Step(r, table.items, table.disk.file)
         == Settle(table.fieldnames, old(table.items), old(table.disk.file), n, now, channel, fault)
    ensures table.disk.tmp == old(table.disk.tmp) || table.disk.tmp == None
  {
    ghost var before, file := table.items, table.disk.file;
    assert Stampable(before);
    var found := FindLast(table, n.invoice);
    if found.None? {
      return Success(UnknownInvoice(n.invoice));
    }
    var i := found.value;
    SettleFound(table.fieldnames, before, file, n, now, channel, fault, i);
    var ts := table.items[i]["slack_ts"];
    table.SetField(i, "date_payment_sent", Time(now));
    ghost var stamped := table.items;
    assert stamped == Stamp(before, i, now);
    var saved := table.Sync(fault);
    assert table.disk.file == AfterSync(fault, table.fieldnames, stamped, file);
    if saved.Fail? {
      r := Failure(SaveFailed(saved.error));
    } else {
      r := Success(Replied(Reply(channel, ts, ReplyText(n.eta))));
    }
  }

  // ---------------------------------------------------------------------
  // The unseen mails of one wake-up

  /** Outcomes of the mails handled, the exception that ended the batch if one did, the rows and the file. */
  datatype Batch = Batch(handled: seq<Handled>, crash: Option<Crash>, items: seq<Row>, file: Option<seq<Record>>)

  /** Mails in order, each with its own save fault; an exception ends the batch. */
  function HandleAll(fieldnames: seq<string>, items: seq<Row>, file: Option<seq<Record>>,
                     mails: seq<Mail>, now: string, channel: string, faults: seq<Fault>): (b: Batch)
    requires Stampable(items) && |faults| == |mails|
    ensures |b.handled| <= |mails| && Stampable(b.items) && |b.items| == |items|
    ensures b.crash.None? <==> |b.handled| == |mails|
    decreases |mails|
  {
    if mails == [] then Batch([], None, items, file)
    else
      var st := Handle(fieldnames, items, file, mails[0], now, channel, faults[0]);
      HandleChangesOneRow(fieldnames, items, file, mails[0], now, channel, faults[0]);
      if st.result.Failure? then Batch([], Some(st.result.error), st.items, st.file)
      else
        var rest := HandleAll(fieldnames, st.items, st.file, mails[1..], now, channel, faults[1..]);
        Batch([st.result.value] + rest.handled, rest.crash, rest.items, rest.file)
  }

  /** Exactly the mails before the first exception are handled, each as `Handle` does it alone. */
  lemma {:induction false} HandleAllPrefix(fieldnames: seq<string>, items: seq<Row>, file: Option<seq<Record>>,
                                           mails: seq<Mail>, now: string, channel: string, faults: seq<Fault>)
    requires Stampable(items) && |faults| == |mails|
    ensures var b := HandleAll(fieldnames, items, file, mails, now, channel, faults);
      b.crash.Some? ==>
        exists k: nat, it, fl :: k < |mails| && |b.handled| == k && Stampable(it)
          && Handle(fieldnames, it, fl, mails[k], now, channel, faults[k]) == Step(Failure(b.crash.value), b.items, b.file)
    decreases |mails|
  {
    if mails != [] {
      var st := Handle(fieldnames, items, file, mails[0], now, channel, faults[0]);
      HandleChangesOneRow(fieldnames, items, file, mails[0], now, channel, faults[0]);
      if st.result.Failure? {
        assert Handle(fieldnames, items, file, mails[0], now, channel, faults[0])
            == Step(Failure(st.result.error), st.items, st.file);
      } else {
        HandleAllPrefix(fieldnames, st.items, st.file, mails[1..], now, channel, faults[1..]);
        var b := HandleAll(fieldnames, items, file, mails, now, channel, faults);
        if b.crash.Some? {
          var k: nat, it, fl :| k < |mails| - 1 && |HandleAll(fieldnames, st.items, st.file, mails[1..], now, channel, faults[1..]).handled| == k && Stampable(it)
            && Handle(fieldnames, it, fl, mails[1..][k], now, channel, faults[1..][k]) == Step(Failure(b.crash.value), b.items, b.file);
          assert mails[1..][k] == mails[k + 1] && faults[1..][k] == faults[k + 1];
        }
      }
    }
  }

  /** `for msg in mbox.fetch(...): process_email(msg)` */
  method ProcessBatch(table: PersistentTable, mails: seq<Mail>, now: string, channel: string, faults: seq<Fault>)
    returns (handled: seq<Handled>, crash: Option<Crash>)
    requires table.Valid() && |faults| == |mails|
    requires "invoice" in table.fieldnames && "slack_ts" in table.fieldnames
    requires "date_payment_sent" in table.fieldnames
    modifies table, table.disk
    ensures table.Valid()
    ensures Batch(handled, crash, table.items, table.disk.file)
         == HandleAll(table.fieldnames, old(table.items), old(table.disk.file), mails, now, channel, faults)
  {
    ghost var whole := HandleAll(table.fieldnames, table.items, table.disk.file, mails, now, channel, faults);
    handled, crash := [], None;
    var k := 0;
    while k < |mails|
      invariant 0 <= k <= |mails| && table.Valid()
      invariant Stampable(table.items)
      invariant var rest := HandleAll(table.fieldnames, table.items, table.disk.file, mails[k..], now, channel, faults[k..]);
        whole == Batch(handled + rest.handled, rest.crash, rest.items, rest.file)
    {
      ghost var items, file := table.items, table.disk.file;
      var r := ProcessEmail(table, mails[k], now, channel, faults[k]);
      assert mails[k..][0] == mails[k] && faults[k..][0] == faults[k];
      assert mails[k..][1..] == mails[k + 1..] && faults[k..][1..] == faults[k + 1..];
      if r.Failure? {
        return handled, Some(r.error);
      }
      handled := handled + [r.value];
      k := k + 1;
    }
  }

  /**
   * `do_idle`: when the wait brought responses, the unseen mails are
   * fetched and processed; otherwise nothing happens.
   */
  method DoIdle(table: PersistentTable, responses: bool, unseen: seq<Mail>, now: string, channel: string,
                faults: seq<Fault>)
    returns (handled: seq<Handled>, crash: Option<Crash>)
    requires table.Valid() && |faults| == |unseen|
    requires "invoice" in table.fieldnames && "slack_ts" in table.fieldnames
    requires "date_payment_sent" in table.fieldnames
    modifies table, table.disk
    ensures table.Valid()
    ensures !responses ==>
      handled == [] && crash == None && table.items == old(table.items) && table.disk.file == old(table.disk.file)
    ensures responses ==>
      Batch(handled, crash, table.items, table.disk.file)
      == HandleAll(table.fieldnames, old(table.items), old(table.disk.file), unseen, now, channel, faults)
  {
    if !responses {
      return [], None;
    }
    handled, crash := ProcessBatch(table, unseen, now, channel, faults);
  }
}
