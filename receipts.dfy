/**
 * Receipt intake from the Slack channel: the receipts table's schema and
 * converters, the numbering of new receipts, the attachment filter, the
 * row each accepted image adds, the zero-padded receipt labels, the
 * uploader's name, the message classification, and the greedy word wrap
 * of the receipt header text.
 */
module Receipts {
  import opened Wrappers
  import opened Text
  import opened Decimal
  import opened Storage
  import opened SeqFacts

  // ---------------------------------------------------------------------
  // The receipts table

  const FIELDNAMES: seq<string> := ["invoice", "slack_ts", "date_requested", "date_payment_sent"]

  /** `int` as a converter: `int(s)`, or the `ValueError` it raises. */
  function ParseInvoice(s: string): Option<Value>
  {
    match ParseInt(s)
    case None => None
    case Some(n) => Some(Num(n))
  }

  /** `convert_date`: the empty string is `None`, anything else a timestamp. */
  function ConvertDate(s: string): Option<Value>
  {
    if s == "" then Some(Null) else Some(Time(s))
  }

  const CONVERTERS: map<string, Converter> := map[
    "invoice" := Apply(ParseInvoice),
    "slack_ts" := Keep,
    "date_requested" := Apply(ConvertDate),
    "date_payment_sent" := Apply(ConvertDate)]

  lemma ReceiptSchema()
    ensures SchemaOk(FIELDNAMES, CONVERTERS)
    ensures FieldSet(FIELDNAMES) == {"invoice", "slack_ts", "date_requested", "date_payment_sent"}
  {
    assert FIELDNAMES[0] == "invoice" && FIELDNAMES[1] == "slack_ts";
    assert FIELDNAMES[2] == "date_requested" && FIELDNAMES[3] == "date_payment_sent";
  }

  /** A date cell: `None` or a non-empty timestamp. */
  predicate IsDate(v: Value)
  {
    v.Null? || (v.Time? && v.iso != "")
  }

  /** The shape of every row of the receipts table. */
  predicate IsReceiptRow(row: Row)
  {
    && row.Keys == {"invoice", "slack_ts", "date_requested", "date_payment_sent"}
    && row["invoice"].Num?
    && row["slack_ts"].Text?
    && IsDate(row["date_requested"])
    && IsDate(row["date_payment_sent"])
  }

  /** Each converter of the receipts table reads back what `dump` wrote for a receipt row. */
  lemma ReceiptRowFits(row: Row)
    requires IsReceiptRow(row)
    ensures RowFits(FIELDNAMES, CONVERTERS, row)
  {
    ReceiptSchema();
    ParseIntOfString(row["invoice"].n);
    forall k | k in FIELDNAMES
      ensures Fits(CONVERTERS[k], row[k])
    {
    }
  }

  /** Saving receipt rows and loading the file again gives the same rows. */
  lemma ReceiptTableRoundTrip(items: seq<Row>)
    requires forall i :: 0 <= i < |items| ==> IsReceiptRow(items[i])
    ensures Decode(FIELDNAMES, CONVERTERS, Dump(FIELDNAMES, items)) == Success(items)
  {
    ReceiptSchema();
    forall i | 0 <= i < |items|
      ensures RowFits(FIELDNAMES, CONVERTERS, items[i])
    {
      ReceiptRowFits(items[i]);
    }
    LoadDumpRoundTrip(FIELDNAMES, CONVERTERS, items);
  }

  /** The row `append(invoice=n, slack_ts=ts, date_requested=now, date_payment_sent=None)` adds. */
  function ReceiptRow(n: int, ts: string, now: string): (row: Row)
    ensures row.Keys == FieldSet(FIELDNAMES)
    ensures now != "" ==> IsReceiptRow(row)
  {
    ReceiptSchema();
    map["invoice" := Num(n), "slack_ts" := Text(ts), "date_requested" := Time(now), "date_payment_sent" := Null]
  }

  /** Stamping the payment date, as the e-mail side does, keeps a receipt row a receipt row. */
  lemma StampKeepsShape(row: Row, now: string)
    requires IsReceiptRow(row) && now != ""
    ensures IsReceiptRow(row["date_payment_sent" := Time(now)])
  {
    var r := row["date_payment_sent" := Time(now)];
    assert r.Keys == row.Keys;
  }

  // ---------------------------------------------------------------------
  // Numbering

  /**
   * `receipt_table[-1]['invoice'] + 1`, or 1 when the table is empty
   * (`IndexError`). `None` when the last invoice is not a number, where
   * the `+` raises.
   */
  function NextReceiptNumber(items: seq<Row>): (r: Option<int>)
    ensures items == [] ==> r == Some(1)
    ensures items != [] ==>
      && (r.Some? <==> "invoice" in items[|items| - 1] && items[|items| - 1]["invoice"].Num?)
      && (r.Some? ==> r.value == items[|items| - 1]["invoice"].n + 1)
  {
    if items == [] then Some(1)
    else
      var last := items[|items| - 1];
      if "invoice" in last && last["invoice"].Num? then Some(last["invoice"].n + 1) else None
  }

  /** The `k` rows of `k` accepted images, numbered on from `first`. */
  function ReceiptRows(first: int, k: nat, ts: string, now: string): (rows: seq<Row>)
    ensures |rows| == k
    ensures forall i :: 0 <= i < k ==> rows[i] == ReceiptRow(first + i, ts, now)
  {
    if k == 0 then [] else ReceiptRows(first, k - 1, ts, now) + [ReceiptRow(first + k - 1, ts, now)]
  }

  /** After `k` receipts numbered from `first`, the next number is `first + k`. */
  lemma NumberingContinues(items: seq<Row>, first: int, k: nat, ts: string, now: string)
    requires k > 0
    ensures NextReceiptNumber(items + ReceiptRows(first, k, ts, now)) == Some(first + k)
  {
    var all := items + ReceiptRows(first, k, ts, now);
    assert all[|all| - 1] == ReceiptRows(first, k, ts, now)[k - 1];
  }

  // ---------------------------------------------------------------------
  // Labels

  /** The thread reply for a receipt: `f'... Receipt #{n:05}.'`. */
  function ThanksText(n: int): string
  {
    "Thank you, your reimbursement is being processed. Receipt #" + Padded5(n) + "."
  }

  /** The second header line of the receipt image and e-mail. */
  function HeaderNumber(n: int): string
  {
    "Receipt #" + Padded5(n)
  }

  /** The saved image and the e-mail subject: `f'receipt_{n:05}.jpg'`. */
  function FileName(n: int): string
  {
    "receipt_" + Padded5(n) + ".jpg"
  }

  /**
   * The number in each label is its receipt number padded to at least five
   * characters and read back by `int`, so the thread reply, the header
   * line and the file name `process_receipt` is given differ exactly when
   * the receipt numbers do.
   */
  lemma LabelsIdentifyReceipts(n: int, m: int)
    ensures |Padded5(n)| >= 5
    ensures FileName(n) == FileName(m) <==> n == m
    ensures ThanksText(n) == ThanksText(m) <==> n == m
    ensures HeaderNumber(n) == HeaderNumber(m) <==> n == m
  {
    Padded5Properties(n);
    Padded5Properties(m);
    if FileName(n) == FileName(m) {
      SameMiddle("receipt_", Padded5(n), Padded5(m), ".jpg");
    }
    if ThanksText(n) == ThanksText(m) {
      SameMiddle("Thank you, your reimbursement is being processed. Receipt #", Padded5(n), Padded5(m), ".");
    }
    if HeaderNumber(n) == HeaderNumber(m) {
      SameMiddle("Receipt #", Padded5(n), Padded5(m), "");
      assert HeaderNumber(n) + "" == HeaderNumber(n) && HeaderNumber(m) + "" == HeaderNumber(m);
    }
  }

  // ---------------------------------------------------------------------
  // Messages

  const REIMBURSEMENT_CHANNEL := "C9NG0FSG4"
  const IMAGE_TYPES: seq<string> := ["image/jpg", "image/jpeg", "image/png"]
  const NO_TEXT := "No message text"
  const NO_USER := "Error getting user"
  const ASK_FOR_RECEIPT := "Please post the receipt"

  datatype Attachment = Attachment(mimetype: string, url: string)

  /** The keys of a message event the handlers read; `None` for a key the event lacks. */
  datatype Message = Message(
    channel: Option<string>,
    channelType: Option<string>,
    user: Option<string>,
    text: Option<string>,
    ts: string,
    threadTs: Option<string>,
    files: Option<seq<Attachment>>)

  /** The `user` part of a `users_info` response. */
  datatype Profile = Profile(realName: Option<string>, name: string)

  /** `is_reimbursement_channel`: a message without a channel is not from the reimbursement channel. */
  function IsReimbursementChannel(m: Message): (r: bool)
    ensures m.channel.None? ==> !r
    ensures m.channel.Some? ==> (r <==> m.channel.value == REIMBURSEMENT_CHANNEL)
  {
    match m.channel
    case None => false
    case Some(chan) => chan == REIMBURSEMENT_CHANNEL
  }

  /** `is_im`: `None` for the `KeyError` of a message without a channel type. */
  function IsIm(m: Message): (r: Option<bool>)
    ensures r.None? <==> m.channelType.None?
    ensures r.Some? ==> (r.value <==> m.channelType.value == "im")
  {
    match m.channelType
    case None => None
    case Some(t) => Some(t == "im")
  }

  datatype Route = ReimbursementPost | DirectMessage | Unhandled

  /**
   * `handle_message`: reimbursement posts first, then direct messages;
   * anything else is logged with its user and channel. `None` when one of
   * the keys read on the way is missing.
   */
  function Dispatch(m: Message): (r: Option<Route>)
    ensures r == Some(ReimbursementPost) <==> IsReimbursementChannel(m)
    ensures r == Some(DirectMessage) <==> !IsReimbursementChannel(m) && IsIm(m) == Some(true)
    ensures r == Some(Unhandled) <==> IsIm(m) == Some(false) && m.user.Some? && m.channel.Some? && !IsReimbursementChannel(m)
  {
    if IsReimbursementChannel(m) then Some(ReimbursementPost)
    else match IsIm(m)
      case None => None
      case Some(true) => Some(DirectMessage)
      case Some(false) => if m.user.Some? && m.channel.Some? then Some(Unhandled) else None
  }

  /** Only images of the three listed types become receipts. */
  predicate IsImage(a: Attachment)
  {
    a.mimetype in IMAGE_TYPES
  }

  /** The attachments a post turns into receipts, in order. */
  function Images(files: seq<Attachment>): (r: seq<Attachment>)
    ensures |r| <= |files|
    ensures forall i :: 0 <= i < |r| ==> IsImage(r[i]) && r[i] in files
    ensures forall a :: a in files && IsImage(a) ==> a in r
  {
    if files == [] then []
    else
      var rest := Images(files[..|files| - 1]);
      var a := files[|files| - 1];
      if IsImage(a) then rest + [a] else rest
  }

  /** Filtering a concatenation filters each part. */
  lemma {:induction false} ImagesConcat(a: seq<Attachment>, b: seq<Attachment>)
    ensures Images(a + b) == Images(a) + Images(b)
    decreases |b|
  {
    if b == [] {
      assert a + b == a;
    } else {
      var c := b[..|b| - 1];
      assert (a + b)[..|a + b| - 1] == a + c;
      assert (a + b)[|a + b| - 1] == b[|b| - 1];
      ImagesConcat(a, c);
    }
  }

  /** The images among the first `i` attachments come first among all images. */
  lemma ImagesPrefix(files: seq<Attachment>, i: nat)
    requires i <= |files|
    ensures |Images(files[..i])| <= |Images(files)|
    ensures Images(files[..i]) == Images(files)[..|Images(files[..i])|]
  {
    assert files == files[..i] + files[i..];
    ImagesConcat(files[..i], files[i..]);
  }

  /** `message['text']`, or `'No message text'` when it has none. */
  function MessageText(m: Message): (r: string)
    ensures m.text.Some? ==> r == m.text.value
    ensures m.text.None? ==> r == NO_TEXT
  {
    match m.text
    case None => NO_TEXT
    case Some(t) => t
  }

  /** The name the receipt is paid to: the real name, else the user name, else an error text. */
  function UploaderName(profile: Option<Profile>): (r: string)
    ensures profile.None? ==> r == NO_USER
    ensures profile.Some? && profile.value.realName.Some? ==> r == profile.value.realName.value
    ensures profile.Some? && profile.value.realName.None? ==> r == profile.value.name
  {
    match profile
    case None => NO_USER
    case Some(p) => match p.realName
      case Some(n) => n
      case None => p.name
  }

  // ---------------------------------------------------------------------
  // A post to the reimbursement channel

  /** Every row's invoice is a number, which `receipt_table[-1]['invoice'] + 1` relies on. */
  ghost predicate Numbered(items: seq<Row>)
  {
    forall i :: 0 <= i < |items| ==> "invoice" in items[i] && items[i]["invoice"].Num?
  }

  /** The `int` converter leaves a number in the invoice field of every record it accepts. */
  lemma DecodedInvoice(rec: Record, row: Row)
    requires SchemaOk(FIELDNAMES, CONVERTERS)
    requires DecodeRecord(FIELDNAMES, CONVERTERS, rec) == Some(row)
    ensures "invoice" in row && row["invoice"].Num?
  {
    DecodeCellsValues(FIELDNAMES, CONVERTERS, rec, 4, 0);
    assert FIELDNAMES[..4] == FIELDNAMES;
  }

  /** A table loaded through the `int` converter has a number as every invoice. */
  lemma LoadedIsNumbered(recs: seq<Record>)
    requires Decode(FIELDNAMES, CONVERTERS, recs).Success?
    ensures Numbered(Decode(FIELDNAMES, CONVERTERS, recs).value)
  {
    ReceiptSchema();
    var data := NonBlank(recs)[1..];
    var items: seq<Row> := Decode(FIELDNAMES, CONVERTERS, recs).value;
    DecodeRowsMeaning(FIELDNAMES, CONVERTERS, data);
    forall i | 0 <= i < |items|
      ensures "invoice" in items[i] && items[i]["invoice"].Num?
    {
      DecodedInvoice(data[i], items[i]);
    }
  }

  /** A numbered table has a next receipt number. */
  lemma NumberedHasNext(items: seq<Row>)
    requires Numbered(items)
    ensures NextReceiptNumber(items).Some?
  {
    if items != [] {
      assert "invoice" in items[|items| - 1];
    }
  }

  lemma NumberedAppend(items: seq<Row>, row: Row)
    requires Numbered(items) && "invoice" in row && row["invoice"].Num?
    ensures Numbered(items + [row])
  {
    forall i | 0 <= i < |items + [row]|
      ensures "invoice" in (items + [row])[i] && (items + [row])[i]["invoice"].Num?
    {
      if i < |items| { assert (items + [row])[i] == items[i]; }
    }
  }

  /** A `say` into the thread of the post. */
  datatype Say = Say(text: string, threadTs: string)

  /** A `process_receipt` call: download, header, saved image and e-mail of one receipt. */
  datatype Job = Job(url: string, number: int, uploader: string, message: string)

  /** A missing `user` key, a last invoice that is not a number (`TypeError`), or a failed save. */
  datatype PostError = MissingUser | NotANumber | SaveFailed(cause: SyncError)

  /** The fault, if any, of the `k`-th save of a post. */
  function FaultAt(faults: seq<Fault>, k: nat): Fault
  {
    if k < |faults| then faults[k] else NoFault
  }

  /**
   * The rows of the table, the replies and receipts so far, the rows
   * appended, how the post stands, and the table's file on disk.
   */
  datatype PostState = PostState(items: seq<Row>, says: seq<Say>, jobs: seq<Job>, done: nat, r: Outcome<PostError>,
                                 file: Option<seq<Record>>)

  /**
   * One turn of the attachment loop: after an error nothing more happens;
   * an attachment that is not an image is skipped; an image reads the
   * next receipt number, is processed and announced, and its row is
   * appended and saved with the `done`-th fault, which leaves the file as
   * `sync` does.
   */
  function Turn(st: PostState, a: Attachment, faults: seq<Fault>,
                ts: string, now: string, uploader: string, text: string): PostState
  {
    if st.r.Fail? || !IsImage(a) then st
    else match NextReceiptNumber(st.items)
      case None => st.(r := Fail(NotANumber))
      case Some(n) =>
        var items := st.items + [ReceiptRow(n, ts, now)];
        var fault := FaultAt(faults, st.done);
        PostState(items, st.says + [Say(ThanksText(n), ts)], st.jobs + [Job(a.url, n, uploader, text)], st.done + 1,
                  if Completes(fault, |items|) then Pass
                  else Fail(SaveFailed(SyncFailure(fault))),
                  AfterSync(fault, FIELDNAMES, items, st.file))
  }

  /** The attachment loop over `files`, from a table holding `start` whose file holds `file`. */
  function Post(start: seq<Row>, file: Option<seq<Record>>, files: seq<Attachment>, faults: seq<Fault>,
                ts: string, now: string, uploader: string, text: string): PostState
  {
    if files == [] then PostState(start, [], [], 0, Pass, file)
    else Turn(Post(start, file, files[..|files| - 1], faults, ts, now, uploader, text), files[|files| - 1], faults, ts, now, uploader, text)
  }

  /**
   * The body of the loop for an image: receipt number `n` is processed and
   * announced, and its row appended and saved with the `done`-th fault.
   */
  method TakeImage(table: PersistentTable, a: Attachment, n: int, ts: string, now: string,
                   uploader: string, text: string, faults: seq<Fault>,
                   says0: seq<Say>, jobs0: seq<Job>, done0: nat)
    returns (says: seq<Say>, jobs: seq<Job>, done: nat, r: Outcome<PostError>)
    requires table.Valid() && table.fieldnames == FIELDNAMES
    requires IsImage(a) && NextReceiptNumber(table.items) == Some(n)
    modifies table, table.disk
    ensures table.Valid()
    ensures PostState(table.items, says, jobs, done, r, table.disk.file)
      == Turn(PostState(old(table.items), says0, jobs0, done0, Pass, old(table.disk.file)), a, faults, ts, now, uploader, text)
    ensures table.disk.tmp == if FaultAt(faults, done0).OpenFault? then old(table.disk.tmp) else None
  {
    ghost var st := PostState(table.items, says0, jobs0, done0, Pass, table.disk.file);
    TurnImage(st, a, n, faults, ts, now, uploader, text);
    says := says0 + [Say(ThanksText(n), ts)];
    jobs := jobs0 + [Job(a.url, n, uploader, text)];
    var saved := table.Append(ReceiptRow(n, ts, now), FaultAt(faults, done0));
    done := done0 + 1;
    r := if saved.Fail? then Fail(SaveFailed(saved.error.cause)) else Pass;
  }

  /**
   * The `for attachment in message["files"]` loop: every image in turn
   * reads the next receipt number from the table, is processed, announced
   * in the thread, and appended (which saves the table). The first error
   * ends the loop.
   */
  method PostImages(table: PersistentTable, files: seq<Attachment>, ts: string, now: string,
                    uploader: string, text: string, faults: seq<Fault>)
    returns (says: seq<Say>, jobs: seq<Job>, done: nat, r: Outcome<PostError>)
    requires table.Valid() && table.fieldnames == FIELDNAMES
    modifies table, table.disk
    ensures table.Valid()
    ensures PostState(table.items, says, jobs, done, r, table.disk.file)
         == Post(old(table.items), old(table.disk.file), files, faults, ts, now, uploader, text)
    ensures Filed(old(table.items), old(table.disk.file), faults, PostState(table.items, says, jobs, done, r, table.disk.file))
    ensures done == 0 ==> table.disk.tmp == old(table.disk.tmp)
  {
    says, jobs, done, r := [], [], 0, Pass;
    ghost var start, file, tmp := table.items, table.disk.file, table.disk.tmp;
    PostFiled(start, file, files, faults, ts, now, uploader, text);
    var i := 0;
    while i < |files|
      invariant 0 <= i <= |files|
      invariant table.Valid() && table.fieldnames == FIELDNAMES
      invariant PostState(table.items, says, jobs, done, r, table.disk.file) == Post(start, file, files[..i], faults, ts, now, uploader, text)
      invariant r == Pass
      invariant done == 0 ==> table.disk.tmp == tmp
    {
      var a := files[i];
      PostStep(start, file, files, i, faults, ts, now, uploader, text);
      i := i + 1;
      if a.mimetype !in IMAGE_TYPES {
        continue;
      }
      var n := NextReceiptNumber(table.items);
      if n.None? {
        r := Fail(NotANumber);
        PostAfterError(start, file, files, i, faults, ts, now, uploader, text);
        return;
      }
      says, jobs, done, r := TakeImage(table, a, n.value, ts, now, uploader, text, faults, says, jobs, done);
      if r.Fail? {
        PostAfterError(start, file, files, i, faults, ts, now, uploader, text);
        return;
      }
    }
    assert files[..i] == files;
  }

  lemma PostStep(start: seq<Row>, file: Option<seq<Record>>, files: seq<Attachment>, i: nat, faults: seq<Fault>,
                 ts: string, now: string, uploader: string, text: string)
    requires i < |files|
    ensures Post(start, file, files[..i + 1], faults, ts, now, uploader, text)
      == Turn(Post(start, file, files[..i], faults, ts, now, uploader, text), files[i], faults, ts, now, uploader, text)
  {
    assert files[..i + 1][..i] == files[..i];
  }

  /** Once a turn has failed, the rest of the attachments change nothing. */
  lemma {:induction false} PostAfterError(start: seq<Row>, file: Option<seq<Record>>, files: seq<Attachment>, i: nat,
                                          faults: seq<Fault>,
                                          ts: string, now: string, uploader: string, text: string)
    requires i <= |files|
    requires Post(start, file, files[..i], faults, ts, now, uploader, text).r.Fail?
    ensures Post(start, file, files, faults, ts, now, uploader, text) == Post(start, file, files[..i], faults, ts, now, uploader, text)
    decreases |files| - i
  {
    if i < |files| {
      assert files[..i + 1][..i] == files[..i];
      PostAfterError(start, file, files, i + 1, faults, ts, now, uploader, text);
    } else {
      assert files[..i] == files;
    }
  }

  // ---------------------------------------------------------------------
  // What a post amounts to

  /** The thread replies for `k` receipts numbered on from `first`. */
  function Replies(first: int, k: nat, ts: string): (says: seq<Say>)
    ensures |says| == k
    ensures forall j :: 0 <= j < k ==> says[j] == Say(ThanksText(first + j), ts)
  {
    if k == 0 then [] else Replies(first, k - 1, ts) + [Say(ThanksText(first + k - 1), ts)]
  }

  /** The `process_receipt` calls for `imgs`, numbered on from `first`. */
  function Jobs(first: int, imgs: seq<Attachment>, uploader: string, text: string): (jobs: seq<Job>)
    ensures |jobs| == |imgs|
    ensures forall j :: 0 <= j < |imgs| ==> jobs[j] == Job(imgs[j].url, first + j, uploader, text)
  {
    if imgs == [] then []
    else Jobs(first, imgs[..|imgs| - 1], uploader, text) + [Job(imgs[|imgs| - 1].url, first + |imgs| - 1, uploader, text)]
  }

  /** The `j`-th save of a post, which writes `base + j + 1` rows, goes through. */
  predicate Saved(faults: seq<Fault>, base: nat, j: nat)
  {
    Completes(FaultAt(faults, j), base + j + 1)
  }

  /**
   * The first `k` images of `imgs` have become receipts `first`,
   * `first + 1`, ..., each with its row after `start`, its thread reply and
   * its `process_receipt` call, in order.
   */
  ghost predicate Issued(start: seq<Row>, imgs: seq<Attachment>, first: int, ts: string, now: string,
                         uploader: string, text: string, k: nat, items: seq<Row>, says: seq<Say>, jobs: seq<Job>)
  {
    && k <= |imgs|
    && items == start + ReceiptRows(first, k, ts, now)
    && says == Replies(first, k, ts)
    && jobs == Jobs(first, imgs[..k], uploader, text)
  }

  /**
   * After `k` of `n` saves of a post on a table of `base` rows: every save
   * but a failed last one went through; the post has failed exactly when
   * a save failed, with that save's error, and otherwise all `n` are done.
   */
  predicate SavesOk(faults: seq<Fault>, base: nat, n: nat, k: nat, r: Outcome<PostError>)
  {
    && (r.Pass? ==> k == n && forall j :: 0 <= j < k ==> Saved(faults, base, j))
    && (r.Fail? ==>
          && 0 < k
          && (forall j :: 0 <= j < k - 1 ==> Saved(faults, base, j))
          && !Saved(faults, base, k - 1)
          && r.error == SaveFailed(SyncFailure(FaultAt(faults, k - 1))))
  }

  /** Where a post from a table holding `start` stands, `imgs` being the images among its attachments so far. */
  ghost predicate Receipted(start: seq<Row>, imgs: seq<Attachment>, first: int, faults: seq<Fault>,
                            ts: string, now: string, uploader: string, text: string, st: PostState)
  {
    && NextReceiptNumber(start) == Some(first)
    && Issued(start, imgs, first, ts, now, uploader, text, st.done, st.items, st.says, st.jobs)
    && SavesOk(faults, |start|, |imgs|, st.done, st.r)
  }

  /** A turn after an error, or over an attachment that is not an image, keeps `Receipted`. */
  lemma ReceiptedSkip(start: seq<Row>, imgs: seq<Attachment>, first: int, st: PostState, a: Attachment,
                      faults: seq<Fault>, ts: string, now: string, uploader: string, text: string)
    requires Receipted(start, imgs, first, faults, ts, now, uploader, text, st)
    requires st.r.Fail? || !IsImage(a)
    ensures Receipted(start, imgs + (if IsImage(a) then [a] else []), first, faults, ts, now, uploader, text, st)
  {
    var more := imgs + (if IsImage(a) then [a] else []);
    assert more[..st.done] == imgs[..st.done];
  }

  /** An image turn of a post that has not failed, given the receipt number it reads. */
  lemma TurnImage(st: PostState, a: Attachment, n: int,
                  faults: seq<Fault>, ts: string, now: string, uploader: string, text: string)
    requires st.r.Pass? && IsImage(a) && NextReceiptNumber(st.items) == Some(n)
    ensures Turn(st, a, faults, ts, now, uploader, text)
      == PostState(st.items + [ReceiptRow(n, ts, now)], st.says + [Say(ThanksText(n), ts)],
                   st.jobs + [Job(a.url, n, uploader, text)], st.done + 1,
                   if Completes(FaultAt(faults, st.done), |st.items| + 1) then Pass
                   else Fail(SaveFailed(SyncFailure(FaultAt(faults, st.done)))),
                   AfterSync(FaultAt(faults, st.done), FIELDNAMES, st.items + [ReceiptRow(n, ts, now)], st.file))
  {
  }

  /** One more receipt extends the rows, the replies and the `process_receipt` calls by one. */
  lemma IssuedNext(start: seq<Row>, imgs: seq<Attachment>, a: Attachment, first: int, ts: string, now: string,
                   uploader: string, text: string, items: seq<Row>, says: seq<Say>, jobs: seq<Job>)
    requires Issued(start, imgs, first, ts, now, uploader, text, |imgs|, items, says, jobs)
    ensures Issued(start, imgs + [a], first, ts, now, uploader, text, |imgs| + 1,
                   items + [ReceiptRow(first + |imgs|, ts, now)], says + [Say(ThanksText(first + |imgs|), ts)],
                   jobs + [Job(a.url, first + |imgs|, uploader, text)])
  {
    var more := imgs + [a];
    assert imgs[..|imgs|] == imgs;
    assert more[..|imgs| + 1] == more;
    assert more[..|more| - 1] == imgs;
  }

  /** The next save either goes through, or fails the post with its error. */
  lemma SavesNext(faults: seq<Fault>, base: nat, k: nat)
    requires SavesOk(faults, base, k, k, Pass)
    ensures SavesOk(faults, base, k + 1, k + 1,
                    if Saved(faults, base, k) then Pass else Fail(SaveFailed(SyncFailure(FaultAt(faults, k)))))
  {
  }

  /** The receipt an image turn adds is the next in the sequence. */
  lemma ReceiptedImage(start: seq<Row>, imgs: seq<Attachment>, first: int, st: PostState, a: Attachment,
                       faults: seq<Fault>, ts: string, now: string, uploader: string, text: string)
    requires Receipted(start, imgs, first, faults, ts, now, uploader, text, st)
    requires st.r.Pass? && IsImage(a)
    ensures Receipted(start, imgs + [a], first, faults, ts, now, uploader, text,
                      Turn(st, a, faults, ts, now, uploader, text))
  {
    var k := st.done;
    if k > 0 {
      NumberingContinues(start, first, k, ts, now);
    } else {
      assert st.items == start + [];
    }
    TurnImage(st, a, first + k, faults, ts, now, uploader, text);
    IssuedNext(start, imgs, a, first, ts, now, uploader, text, st.items, st.says, st.jobs);
    SavesNext(faults, |start|, k);
    assert |st.items| + 1 == |start| + k + 1;
  }

  /** The last turn of a post keeps `Receipted`. */
  lemma ReceiptedLast(start: seq<Row>, file: Option<seq<Record>>, files: seq<Attachment>, first: int,
                      faults: seq<Fault>,
                      ts: string, now: string, uploader: string, text: string)
    requires files != []
    requires Receipted(start, Images(files[..|files| - 1]), first, faults, ts, now, uploader, text,
                       Post(start, file, files[..|files| - 1], faults, ts, now, uploader, text))
    ensures Receipted(start, Images(files), first, faults, ts, now, uploader, text,
                      Post(start, file, files, faults, ts, now, uploader, text))
  {
    var p := files[..|files| - 1];
    var st, a := Post(start, file, p, faults, ts, now, uploader, text), files[|files| - 1];
    if st.r.Fail? || !IsImage(a) {
      ReceiptedSkip(start, Images(p), first, st, a, faults, ts, now, uploader, text);
    } else {
      ReceiptedImage(start, Images(p), first, st, a, faults, ts, now, uploader, text);
    }
  }

  /**
   * A post, from a table whose next receipt number is `first`: its images
   * become receipts `first`, `first + 1`, ... in order, each saved before
   * the next is read, until all are done or a save fails; the last invoice
   * is never found not to be a number.
   */
  lemma {:induction false} PostReceipts(start: seq<Row>, file: Option<seq<Record>>, files: seq<Attachment>, first: int,
                                        faults: seq<Fault>,
                                        ts: string, now: string, uploader: string, text: string)
    requires NextReceiptNumber(start) == Some(first)
    ensures Receipted(start, Images(files), first, faults, ts, now, uploader, text,
                      Post(start, file, files, faults, ts, now, uploader, text))
    ensures Post(start, file, files, faults, ts, now, uploader, text).r != Fail(NotANumber)
  {
    if files == [] {
      assert start + [] == start;
    } else {
      PostReceipts(start, file, files[..|files| - 1], first, faults, ts, now, uploader, text);
      ReceiptedLast(start, file, files, first, faults, ts, now, uploader, text);
    }
  }

  /**
   * The file after a post that started from `file`: untouched while no row
   * has been appended; after a save that went through, the dump of the
   * rows; after a failed save, what that `sync` leaves of the dump, over
   * the file the save before it left.
   */
  ghost predicate Filed(start: seq<Row>, file: Option<seq<Record>>, faults: seq<Fault>, st: PostState)
  {
    && |st.items| == |start| + st.done
    && (st.done == 0 ==> st.file == file)
    && (st.done > 0 && !(st.r.Fail? && st.r.error.SaveFailed?) ==> st.file == Some(Dump(FIELDNAMES, st.items)))
    && (st.r.Fail? && st.r.error.SaveFailed? ==>
          && st.done > 0
          && st.file == AfterSync(FaultAt(faults, st.done - 1), FIELDNAMES, st.items,
                                  if st.done == 1 then file else Some(Dump(FIELDNAMES, st.items[..|st.items| - 1]))))
  }

  /** What a post leaves on disk: every save rewrites the file, and the first failed one ends the post. */
  lemma {:induction false} PostFiled(start: seq<Row>, file: Option<seq<Record>>, files: seq<Attachment>, faults: seq<Fault>,
                                     ts: string, now: string, uploader: string, text: string)
    ensures Filed(start, file, faults, Post(start, file, files, faults, ts, now, uploader, text))
  {
    if files != [] {
      PostFiled(start, file, files[..|files| - 1], faults, ts, now, uploader, text);
      FiledTurn(start, file, faults, Post(start, file, files[..|files| - 1], faults, ts, now, uploader, text),
                files[|files| - 1], ts, now, uploader, text);
    }
  }

  /** One turn of the loop keeps `Filed`. */
  lemma FiledTurn(start: seq<Row>, file: Option<seq<Record>>, faults: seq<Fault>, st: PostState, a: Attachment,
                  ts: string, now: string, uploader: string, text: string)
    requires Filed(start, file, faults, st)
    ensures Filed(start, file, faults, Turn(st, a, faults, ts, now, uploader, text))
  {
    if !st.r.Fail? && IsImage(a) && NextReceiptNumber(st.items).Some? {
      var n := NextReceiptNumber(st.items).value;
      var items := st.items + [ReceiptRow(n, ts, now)];
      var fault := FaultAt(faults, st.done);
      TurnImage(st, a, n, faults, ts, now, uploader, text);
      assert items[..|items| - 1] == st.items;
      assert st.file == if st.done == 0 then file else Some(Dump(FIELDNAMES, st.items));
      if Completes(fault, |items|) {
        assert AfterSync(fault, FIELDNAMES, items, st.file) == Some(Dump(FIELDNAMES, items));
      }
    }
  }

  /** After a post whose saves all went through, loading the file gives back the table's rows. */
  lemma PostSavedLoads(start: seq<Row>, file: Option<seq<Record>>, files: seq<Attachment>, first: int,
                       faults: seq<Fault>, ts: string, now: string, uploader: string, text: string)
    requires NextReceiptNumber(start) == Some(first) && now != ""
    requires forall i :: 0 <= i < |start| ==> IsReceiptRow(start[i])
    ensures var p := Post(start, file, files, faults, ts, now, uploader, text);
      p.r.Pass? && p.done > 0 ==> p.file.Some? && Decode(FIELDNAMES, CONVERTERS, p.file.value) == Success(p.items)
  {
    var p := Post(start, file, files, faults, ts, now, uploader, text);
    PostReceipts(start, file, files, first, faults, ts, now, uploader, text);
    PostFiled(start, file, files, faults, ts, now, uploader, text);
    if p.r.Pass? && p.done > 0 {
      assert p.items == start + ReceiptRows(first, p.done, ts, now);
      assert p.file == Some(Dump(FIELDNAMES, p.items));
      NewReceiptsLoad(start, first, p.done, ts, now);
    }
  }

  /** A table of receipt rows with `k` new receipts appended dumps to a file that loads back as those rows. */
  lemma NewReceiptsLoad(start: seq<Row>, first: int, k: nat, ts: string, now: string)
    requires now != "" && forall i :: 0 <= i < |start| ==> IsReceiptRow(start[i])
    ensures var items := start + ReceiptRows(first, k, ts, now);
      Decode(FIELDNAMES, CONVERTERS, Dump(FIELDNAMES, items)) == Success(items)
  {
    var rows := ReceiptRows(first, k, ts, now);
    var items := start + rows;
    forall i | 0 <= i < |items|
      ensures IsReceiptRow(items[i])
    {
      if i >= |start| {
        assert items[i] == rows[i - |start|];
      }
    }
    ReceiptTableRoundTrip(items);
  }

  /** A post to a table loaded from disk (so numbered) never fails on the receipt number. */
  lemma NumberedPost(start: seq<Row>, file: Option<seq<Record>>, files: seq<Attachment>, faults: seq<Fault>,
                     ts: string, now: string, uploader: string, text: string)
    requires Numbered(start)
    ensures NextReceiptNumber(start).Some?
    ensures Receipted(start, Images(files), NextReceiptNumber(start).value, faults, ts, now, uploader, text,
                      Post(start, file, files, faults, ts, now, uploader, text))
  {
    NumberedHasNext(start);
    PostReceipts(start, file, files, NextReceiptNumber(start).value, faults, ts, now, uploader, text);
  }

  /**
   * `handle_reimbursement_post`: the images of a post with files become
   * receipts; a post without files that is not itself in a thread is
   * asked for the receipt. The user's key is read first, for the log.
   */
  method HandleReimbursementPost(table: PersistentTable, m: Message, profile: Option<Profile>,
                                 now: string, faults: seq<Fault>)
    returns (says: seq<Say>, jobs: seq<Job>, done: nat, r: Outcome<PostError>)
    requires table.Valid() && table.fieldnames == FIELDNAMES
    modifies table, table.disk
    ensures table.Valid()
    ensures m.user.None? ==>
      && r == Fail(MissingUser) && says == [] && jobs == [] && done == 0 && table.items == old(table.items)
      && table.disk.file == old(table.disk.file) && table.disk.tmp == old(table.disk.tmp)
    ensures m.user.Some? && m.files.None? ==>
      && r == Pass && jobs == [] && done == 0 && table.items == old(table.items)
      && table.disk.file == old(table.disk.file) && table.disk.tmp == old(table.disk.tmp)
      && says == if m.threadTs.None? then [Say(ASK_FOR_RECEIPT, m.ts)] else []
    ensures m.user.Some? && m.files.Some? ==>
      && PostState(table.items, says, jobs, done, r, table.disk.file)
         == Post(old(table.items), old(table.disk.file), m.files.value, faults, m.ts, now, UploaderName(profile), MessageText(m))
      && Filed(old(table.items), old(table.disk.file), faults, PostState(table.items, says, jobs, done, r, table.disk.file))
      && (done == 0 ==> table.disk.tmp == old(table.disk.tmp))
  {
    says, jobs, done, r := [], [], 0, Pass;
    if m.user.None? {
      r := Fail(MissingUser);
    } else if m.files.Some? {
      says, jobs, done, r := PostImages(table, m.files.value, m.ts, now, UploaderName(profile), MessageText(m), faults);
    } else if m.threadTs.None? {
      says := [Say(ASK_FOR_RECEIPT, m.ts)];
    }
  }
}
