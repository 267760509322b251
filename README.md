# Reimbursement bot: a verified model of its core

The reimbursement bot watches a Slack channel for receipts and a mailbox for
payment notices. Receipts are images posted to the reimbursement channel.
Every accepted image gets the next receipt number. The bot answers in the
post's thread and records a row in a CSV-backed table. Later, the payment
processor mails a "payment is scheduled for" notice. The mailbox watcher
reads the invoice number and the delivery estimate from that notice. It
stamps the matching row with the time and replies in the receipt's thread
with the estimate.

This project models, in Dafny:

- `PersistentTable` (`storage.dfy`).
  - A class holding the rows.
  - The disk, as a class with a real-file slot and a `.tmp` slot.
  - `load`, `dump`, `sync`, `append`, `len`, indexing and the in-place
    update of a row's field.
  - Write faults are injected as a parameter.
- The notice processor `process_email` (`emailing.dfy`).
  - Newline normalisation.
  - Line split and label lookup.
  - `int()`, which reads the decimal digits of every script as Unicode 15.0
    defines them, and skips less whitespace than `str.strip`.
  - The last-match row scan.
  - The stamp and the sync.
  - The reply.
  - `do_idle`'s fetch loop.
- The session loop and the supervisor (`session.dfy`). They are a step
  function over abstract events of the environment: clock readings, calls
  returning, IDLE responses, transport errors, interrupts and other
  exceptions. Methods follow the program's nested loops and are proved to
  emit exactly the actions the step function predicts.
- The receipt-intake rules of the Slack handlers (`receipts.dfy`).
  - The receipts table's schema and converters.
  - The next receipt number.
  - The image filter.
  - The appended row.
  - The `{n:05}` labels.
  - The uploader name.
  - Channel classification and message dispatch.
  - The attachment loop of `handle_reimbursement_post`.
- The greedy word wrap `get_wrapped_text` (`wrap.dfy`). The font width is a
  function parameter `width: string -> nat`.
- Python's string and integer rules that the core relies on.
  - `text.dfy`: `str.isspace`, `strip`, `split()`, `split(sep)` and
    `join`.
  - `decimal.dfy`: `str(int)`, `int(str)` and `format(n, "05")`.
  - `seqs.dfy`: small sequence facts.
  - `wrappers.dfy`: `Option`, `Result` and `Outcome`.

Some behaviours of the code are easy to miss. The model keeps each of them:

- **Last match wins.** The scan in `process_email` has no `break`, so the
  *last* row recording the invoice number is stamped (`LastMatchIn`,
  `FindLast`).
- **Memory ahead of disk.** `append` and the stamp change the rows in
  memory before syncing. A failed sync therefore leaves the new row or the
  stamp in memory, and the file is not brought up to date. `Append` states
  this for one row, `Turn` and `Post` for the rows and the file of a post,
  and `Settle` for a notice.
- **Move before close.** `sync` moves the temporary file over the real one
  inside the `with` block, before the file is closed. A flush that fails at
  the close leaves the real file holding only a prefix of the dump, while
  `sync` raises (`CloseFault`, `AfterSync`).
- **A label on the last line is not soft.** A missing label is logged and
  the mail skipped. But when a label is the *last* line, `text_split[idx]`
  raises an `IndexError`. That error is not caught in `process_email` and
  leaves the session, so the model has a separate outcome,
  `LabelIsLastLine`.
- **Any script's digits.** `int()` reads the decimal digits of every script
  (Unicode category Nd), so an invoice line in fullwidth digits is a
  number (`FullwidthDigits`).
- **`int()` whitespace is not `str.isspace`.** `int()` skips ASCII tab to
  carriage return, space, and the non-ASCII whitespace. It does not skip
  the separators U+001C to U+001F, although `str.isspace`, `split()` and
  `\s` count them as whitespace. So an invoice line `"5"` followed by
  U+001C is not a number (`IntWhitespace`, `SeparatorMakesInvoiceUnreadable`).
- **Interrupts.**
  - An interrupt during `do_idle` sets `done` and logs out.
  - An interrupt during login or logout breaks the loop without logging
    out.
  - An interrupt while reading `start_time` or during the minute's sleep
    escapes to the supervisor.
  - When the session function returns normally, the supervisor's
    `while True` calls it again.
  - Only an interrupt during the supervisor's ten-second pause ends the
    thread.
- **Reply channel.** `emailing.py` imports `REIMBURSEMENT_CHANNEL` from
  `slack_handlers.py`, which does not define it. The reply's channel is
  therefore a parameter of the model.

`do_idle` appears twice, seen from two sides:
- `Emailing.DoIdle` says what the wait's responses do to the table.
- `Session.DoIdle` and `Session.FetchMail` say what the session does next.

The two are linked through the session's events:
- The session's `FetchUnseen` action is a run of `Emailing.ProcessBatch`.
- If the batch finishes, the session sees `Returned`.
- If the batch raises its `IndexError` or an `OSError` from the save, the
  session sees `Crash`. Neither exception is among the caught transport
  errors, so it reaches the supervisor.
- An error of `mbox.fetch` itself is `NetError`.

## Model

| member | source | states |
|---|---|---|
| Storage.PersistentTable.constructor | src/storage.py:23-26 | a new table has the given file, schema and converters, and no rows |
| Storage.Open | src/storage.py:16-33 | the table loads the file exactly when it exists, may be read and `create_new` is false; a failed load is the constructor's error; otherwise the table is empty |
| Storage.PersistentTable.Load | src/storage.py:61-81 | succeeds exactly when the file decodes; then the rows are the old rows followed by the decoded ones; otherwise the error is the decoder's (empty file, header mismatch, first bad record) |
| Storage.HeaderIsFirstFilled | src/storage.py:63-70 | the first non-blank record is the header: a header other than the field names, in order, fails the load with that header; otherwise the rows come from the records after it |
| Storage.PersistentTable.LoadRows | src/storage.py:73-78 | the `for d in reader` loop appends exactly the decoded rows of the non-blank records, or fails naming the first record that does not convert |
| Storage.PersistentTable.ConvertRecord | src/storage.py:74-77 | the inner loop builds exactly the row `DecodeRecord` gives, whose keys are the field names |
| Storage.DecodeCellsKeys | src/storage.py:74-77 | a row decoded from the first `j` fields has exactly those fields as keys |
| Storage.DecodeCellsValues | src/storage.py:76-77 | every field of a decoded row holds its cell through the field's converter; a field without a converter keeps the raw string |
| Storage.DecodeCellsKeepsFailure | src/storage.py:76-81 | once a cell fails to convert, the whole record fails |
| Storage.DecodeRows | src/storage.py:73-78 | a successful load has one row per data record |
| Storage.DecodeRowsMeaning | src/storage.py:73-81 | the load succeeds if and only if every record converts; the rows are the records converted in order; a failure names the first record that does not convert |
| Storage.DecodeRowsKeepsFailure | src/storage.py:80-81 | any failing record aborts the whole load, whatever follows it |
| Storage.DataFails | src/storage.py:73-81 | a record that does not convert, after records that all do, fails the load with its position among the non-blank data records |
| Storage.DataSucceeds | src/storage.py:73-78 | a record that converts adds its row after the rows loaded so far |
| Storage.DumpRows | src/storage.py:48-50 | one record per row, in list order, each the row's cells in field-name order |
| Storage.DecodeRecordOfRow | src/storage.py:73-78 | a row whose converters invert the string form of its values is read back unchanged from its record |
| Storage.DecodeDumpRows | src/storage.py:46-78 | the dumped data records load back as the same rows |
| Storage.LoadDumpRoundTrip | src/storage.py:46-78 | loading what `dump` wrote gives the same rows, provided the schema has a field and every converter inverts the string form of its field's values |
| Storage.PersistentTable.Sync | src/storage.py:35-44 | it succeeds exactly when the header and every row are written and the close succeeds, and then the real file holds exactly `dump(items)`; a failure to open or write leaves the real file as it was; a failed close after the move leaves the real file holding a prefix of `dump(items)`; the error names which step failed; only a failed open leaves the temporary file in place |
| Storage.AfterSyncMeaning | src/storage.py:37-44 | after `sync` the real file is the full dump when it completes, the old file when opening or writing failed, and a prefix of the dump (of `kept` records) when the close failed |
| Storage.PersistentTable.Append | src/storage.py:95-103 | a row whose keys are not the field names fails and changes neither memory nor disk; otherwise the rows become the old rows followed by the new one whatever the sync does, and the file is what `sync` leaves |
| Storage.PersistentTable.GetItem | src/storage.py:86-87 | `table[key]` with Python's negative indices: defined exactly for `-len <= key < len`, and then the row at that position |
| Storage.PersistentTable.SetField | src/emailing.py:122 | assigning a field of a row changes only that field of that row, and keeps every row on the schema |
| Emailing.NormalizeIsTidy | src/emailing.py:85 | after `re.sub(r"\s*\n+\s*", "\n", text)` no newline stands next to a whitespace character |
| Emailing.NoDoubleNewline | src/emailing.py:85-86 | the normalised text never has two newlines side by side |
| Emailing.NormalizeKeepsText | src/emailing.py:85 | normalisation keeps every non-whitespace character, in order |
| Emailing.NormalizeWithoutNewline | src/emailing.py:85 | text without a newline is left exactly as it is |
| Emailing.IndexOf | src/emailing.py:90-91 | `lines.index(key)` finds the first position holding the key, and fails exactly when the key is absent |
| Emailing.ParseNotice | src/emailing.py:86-108 | a missing label is a format change, exactly when either label is absent; a label on the last line is the `IndexError`, exactly when that happens; an invoice line that `int` rejects is its own failure |
| Emailing.ParseNoticeFields | src/emailing.py:89-102 | the invoice is the line after the first "Invoice number" line, read by `int` (including its whitespace rule); the estimate is the line after the first "Payment delivery ETA" line, verbatim; with both readable, the parse succeeds with them |
| Emailing.SeparatorMakesInvoiceUnreadable | src/emailing.py:101-108 | an invoice line "5" followed by U+001C makes the notice fail as not an integer |
| Emailing.LastMatchIn | src/emailing.py:113-116 | the scan settles on the last row that records the invoice, and finds none exactly when no row does |
| Emailing.FindLast | src/emailing.py:113-116 | the search loop returns the last row recording the invoice |
| Emailing.SettleChangesOneRow | src/emailing.py:111-125 | settling a notice changes at most the payment date of the last matching row; a reply means the file holds the new rows; without a reply the file changes only when the close after the move fails, to a prefix of the new dump |
| Emailing.SettleReply | src/emailing.py:128-133 | the reply goes to the given channel, in the thread of the last matching row, and carries the estimate verbatim; that row now has the time as its payment date and the same `slack_ts` |
| Emailing.HandleChangesOneRow | src/emailing.py:75-125 | a mail changes rows or file only when its subject matches; rows change only when its notice parses, and then only the last matching row's payment date; a reply means the file holds the new rows; otherwise the file changes only when the close after the move fails, to a prefix of the new dump |
| Emailing.HandleReply | src/emailing.py:75-133 | a reply means the subject matched and the notice parsed; it goes to the matching row's thread with the notice's estimate, and the row is stamped |
| Emailing.ProcessEmail | src/emailing.py:69-135 | `process_email`'s outcome, rows and file are exactly what `Handle` gives for the mail |
| Emailing.StampAndReply | src/emailing.py:111-133 | finding, stamping, syncing and replying give exactly `Settle`'s outcome, rows and file |
| Emailing.HandleAll | src/emailing.py:157-158 | the mails are handled in order; the row count and the fields `process_email` reads are kept; no exception was raised exactly when every mail has its outcome |
| Emailing.HandleAllPrefix | src/emailing.py:157-158 | when a mail raises, exactly the mails before it were handled, and that mail raised as `Handle` does on its own |
| Emailing.ProcessBatch | src/emailing.py:157-158 | the fetch loop processes the mails one by one with exactly the outcome, rows and file of `HandleAll` |
| Emailing.DoIdle | src/emailing.py:154-158 | without responses nothing changes; with responses the unseen mails are processed as `HandleAll` says |
| Session.RunConcat | src/emailing.py:162-196 | running two stretches of events one after the other gives the actions of each in turn |
| Session.StoppedStays | src/emailing.py:52-58 | once the thread has ended, no event makes it do anything |
| Session.StopsOnlyFromRestart | src/emailing.py:52-58 | the thread ends only on an interrupt during the supervisor's ten-second pause |
| Session.ExitIsLast | src/emailing.py:52-58 | no action follows the thread's exit |
| Session.IdleOnlyWhileYoung | src/emailing.py:171-173 | with a monotonic clock, every IDLE wait starts while the session is younger than 29 minutes, with the 180-second timeout |
| Session.RenewAfterPeriod | src/emailing.py:171-179 | a session at least 29 minutes old logs out and, at the next clock reading, logs in afresh with a new start time |
| Session.OneFailure | src/emailing.py:181-192 | a login failing with a transport error is followed by one sixty-second sleep and a return to the top of the loop |
| Session.BackoffPerFailure | src/emailing.py:181-192 | `n` consecutive failed logins give exactly `n` logins and `n` sixty-second sleeps, with no logout |
| Session.InterruptLogsOut | src/emailing.py:174-179 | an interrupt in `do_idle` logs out and then the session returns, after the minute's sleep when the logout fails |
| Session.FetchFails | src/emailing.py:156-192 | a transport error while fetching the new mails is followed by the minute's sleep and a return to the top of the loop |
| Session.CrashRestarts | src/emailing.py:52-58 | any other exception inside the session leads to the supervisor's ten-second pause and a new session |
| Session.DoIdle | src/emailing.py:154-158 | one IDLE wait: back to the age test without responses; with responses, the fetch as `FetchMail` runs it; or hand-back of the error or interrupt, exactly as the step function runs |
| Session.FetchMail | src/emailing.py:156-178 | the fetch loop returns to the age test when it ends, backs off on a transport error, logs out on an interrupt, and reaches the supervisor on any other exception, exactly as the step function runs |
| Session.RenewalPass | src/emailing.py:171-178 | one pass of the renewal loop (the age test, then `do_idle`) emits exactly the step function's actions |
| Session.RenewalLoop | src/emailing.py:171-178 | the renewal loop emits exactly the step function's actions until it hands back |
| Session.Pause | src/emailing.py:191-192 | the minute's sleep either returns to the top of the loop or, when interrupted, leaves the session |
| Session.LogOut | src/emailing.py:179-192 | the logout, and the minute's sleep when it fails, emit exactly the step function's actions |
| Session.LoggedIn | src/emailing.py:169-192 | the body of the outer `try` after login emits exactly the step function's actions |
| Session.SessionTurn | src/emailing.py:163-196 | one turn of `while not done` emits exactly the step function's actions |
| Session.WaitForEmail | src/emailing.py:162-196 | the session function runs turns until `done` or an exit, with exactly the step function's actions |
| Session.EmailingThread | src/emailing.py:52-58 | the supervisor's actions are exactly those the step function gives for the same events |
| Receipts.ReceiptSchema | src/slack_handlers.py:33-39 | the receipts table's four field names are distinct and each has a converter entry |
| Receipts.ReceiptRowFits | src/slack_handlers.py:26-39 | each converter of the receipts table reads back what `dump` writes for a receipt row |
| Receipts.ReceiptTableRoundTrip | src/slack_handlers.py:33-47 | saving receipt rows and loading the file gives the same rows |
| Receipts.DecodedInvoice | src/slack_handlers.py:34 | a record the `int` converter accepts has a number as its invoice |
| Receipts.LoadedIsNumbered | src/slack_handlers.py:43-47 | every row of a table loaded from disk has a number as its invoice |
| Receipts.ReceiptRow | src/slack_handlers.py:113-114 | the appended row has exactly the table's four fields and, with a request time, is a receipt row: a number, a thread timestamp, and dates |
| Receipts.StampKeepsShape | src/emailing.py:122 | stamping the payment date keeps a receipt row a receipt row |
| Receipts.NextReceiptNumber | src/slack_handlers.py:79-82 | the next number is the last row's invoice plus one, or 1 for an empty table; it is undefined (`TypeError`) exactly when the last invoice is not a number |
| Receipts.ReceiptRows | src/slack_handlers.py:113-114 | `k` accepted images add `k` rows numbered on from the first |
| Receipts.NumberingContinues | src/slack_handlers.py:79-82 | after `k` receipts numbered from `first`, the next number is `first + k` |
| Receipts.NumberedHasNext | src/slack_handlers.py:79-82 | a table whose invoices are all numbers always has a next receipt number |
| Receipts.NumberedAppend | src/slack_handlers.py:113-114 | appending a numbered row keeps every invoice a number |
| Receipts.LabelsIdentifyReceipts | src/slack_handlers.py:109 | the thread reply, the header line (line 177) and the file name (line 205) hold the number padded to at least five characters; two labels are equal exactly when the receipt numbers are |
| Receipts.IsReimbursementChannel | src/slack_handlers.py:129-139 | false without a `channel` key, otherwise true exactly for channel "C9NG0FSG4" |
| Receipts.IsIm | src/slack_handlers.py:142-143 | a message without `channel_type` raises `KeyError`; otherwise true exactly for "im" |
| Receipts.Dispatch | src/slack_handlers.py:50-61 | a reimbursement post exactly when the message is in the reimbursement channel; a direct message exactly when it is not and its `channel_type` is "im"; unhandled exactly when `channel_type` is something else and `user` and `channel` are present |
| Receipts.Images | src/slack_handlers.py:74-76 | every accepted attachment is one of the post's files of type `image/jpg`, `image/jpeg` or `image/png`, and every such file is accepted |
| Receipts.MessageText | src/slack_handlers.py:85-88 | the message text, or "No message text" when it has none |
| Receipts.UploaderName | src/slack_handlers.py:92-98 | "Error getting user" without a user; otherwise the real name when there is one, else the user name |
| Receipts.Replies | src/slack_handlers.py:109-110 | `k` thread replies, the `j`-th announcing receipt `first + j` in the post's thread |
| Receipts.Jobs | src/slack_handlers.py:101-106 | one `process_receipt` call per accepted image, with its URL, its number, the uploader and the message |
| Receipts.TakeImage | src/slack_handlers.py:78-114 | an image with the next number is announced, handed to `process_receipt`, and its row appended and saved: the rows, replies, jobs, outcome and file are exactly one `Turn` of the loop, where the file is what `sync` leaves; the temporary file is gone unless the open failed |
| Receipts.PostImages | src/slack_handlers.py:74-114 | the attachment loop's replies, jobs, rows, outcome and file are exactly `Post`'s; the file is untouched until a row is appended, is the dump of the rows after a save that went through, and after a failed save is what that `sync` leaves; with no row appended the temporary file is untouched too |
| Receipts.PostAfterError | src/slack_handlers.py:74-114 | after the first exception the remaining attachments change nothing |
| Receipts.ReceiptedSkip | src/slack_handlers.py:75-76 | an attachment that is not an image, or a turn after an error, adds no receipt |
| Receipts.IssuedNext | src/slack_handlers.py:101-114 | one more receipt extends the rows, the replies and the `process_receipt` calls by one, with the next number |
| Receipts.SavesNext | src/slack_handlers.py:113-114 | the next save either goes through or fails the post with its own error |
| Receipts.ReceiptedImage | src/slack_handlers.py:78-114 | an image turn keeps the receipts consecutive: the new image has the next number, its row, reply and job, and its save's outcome |
| Receipts.ReceiptedLast | src/slack_handlers.py:74-114 | the last turn of a post keeps its receipts consecutive |
| Receipts.PostReceipts | src/slack_handlers.py:74-114 | the images of a post become receipts `first`, `first + 1`, ..., in order, each with its row, reply and job; the post fails exactly when a save fails, that save is the last, and its error is the post's; the receipt number never fails |
| Receipts.PostFiled | src/slack_handlers.py:74-114 | after a post the file is as it was while no row has been appended, the dump of the rows after a save that went through, and after a failed save what that `sync` leaves of the dump over the previous save's file |
| Receipts.PostSavedLoads | src/slack_handlers.py:113-114 | after a post whose saves all went through, loading the file gives back exactly the table's rows |
| Receipts.NumberedPost | src/slack_handlers.py:74-114 | a post to a table loaded from disk numbers its receipts on from the last invoice |
| Receipts.HandleReimbursementPost | src/slack_handlers.py:64-121 | a post without a user fails at once; a post without files and not in a thread is asked for the receipt; in both cases the rows, the file and the temporary file stay as they were; a post with files runs the attachment loop exactly as `Post` states, rows and file included |
| Wrapping.WrapStep | src/slack_handlers.py:240-244 | one word: the last line when the word fits after it, else a new line, so there is always at least one line |
| Wrapping.GetWrappedText | src/slack_handlers.py:236-245 | the loop over `text.split()` returns exactly the wrapped lines joined by newlines |
| Wrapping.FitsKeepsWords | src/slack_handlers.py:240-242 | putting the word on the last line keeps the lines' words equal to the words so far |
| Wrapping.FitsKeepsLines | src/slack_handlers.py:240-242 | putting the word on the last line keeps every line of two or more words within `line_length` |
| Wrapping.FitsKeepsBreaks | src/slack_handlers.py:240-242 | putting the word on the last line keeps every line break forced |
| Wrapping.WrapOkFits | src/slack_handlers.py:240-242 | a word that fits after the last line keeps the wrap correct |
| Wrapping.WrapOkBreaks | src/slack_handlers.py:243-244 | a word that does not fit starts a new line and keeps the wrap correct |
| Wrapping.WrapOkStart | src/slack_handlers.py:238 | the single empty line is a correct wrap of no words |
| Wrapping.WrapOkStep | src/slack_handlers.py:239-244 | every turn of the loop keeps the wrap correct |
| Wrapping.WrapIsOk | src/slack_handlers.py:238-245 | the lines hold exactly the words of `text.split()`, in order; every line of two or more words fits `line_length`; a new line starts only when the next word would not fit on the line before |
| Wrapping.NoNewlineInJoinWords | src/slack_handlers.py:240 | a line built from words contains no newline |
| Wrapping.WrappedLines | src/slack_handlers.py:245 | splitting the result on newlines gives back exactly the wrapped lines |
| Text.SplitJoinWords | src/slack_handlers.py:239 | `" ".join(words).split()` gives the words back |
| Text.AddWord | src/slack_handlers.py:240 | `f'{line} {word}'.strip()` on a line of spaced words puts the word at the end of the line |
| Text.JoinSplit | src/emailing.py:86 | joining the pieces of `split(sep)` restores the string |
| Text.SplitJoin | src/slack_handlers.py:245 | splitting pieces joined by a separator they do not contain gives the pieces back |
| Decimal.ParseIntOfString | src/slack_handlers.py:34 | `int(str(n)) == n`: the `int` converter reads back what the CSV writer stored |
| Decimal.ParseStripped | src/emailing.py:102 | `int` of a sign and ASCII digit groups, with no whitespace `int` skips at either end (single underscores between digits) is their signed value |
| Decimal.IntWhitespace | src/emailing.py:102 | `int()` skips the ideographic space after a number, but not the separators U+001C and U+001F |
| Decimal.DecimalZero | src/emailing.py:102 | each block of decimal digits `int()` accepts runs from its zero to its nine |
| Decimal.AsciiOfDecimal | src/emailing.py:102 | `int()` reads a decimal digit of any script as the ASCII digit of its value, and leaves every other character alone |
| Decimal.FullwidthDigits | src/emailing.py:102 | the invoice line "１２" in fullwidth digits is read as 12 |
| Decimal.Padded5Properties | src/slack_handlers.py:109 | `format(n, "05")` is as long as `str(n)` or five characters, whichever is more; it is all digits for `n >= 0`, and `int` reads it back as `n` |

## Left out

- Network clients are left out: IMAP (`MailBox`, `idle.wait`, `fetch`), Slack (`WebClient`, `say`, `users_info`, `chat_postMessage`), SMTP and `requests`. They appear as events of the session machine, as outputs (`Reply`, `Say`, `Job`) and as parameters: the mails of a batch and the user profile. Because the profile is a single parameter, the model does not cover `users_info` returning different answers for different attachments.
- Failures of `say`, `users_info` and `chat_postMessage` are not modelled. In the source, an exception from `users_info` (`slack_handlers.py:91`) or from `say` (`slack_handlers.py:109`) ends the attachment loop before line 113 appends the row, so that receipt has a number and a `process_receipt` call but no row. An exception from `chat_postMessage` (`emailing.py:133`) comes after the stamp has been saved and leaves `process_email`, so the session sees it as a crash.
- BeautifulSoup's HTML-to-text is foreign code. The model starts from the extracted body text.
- `process_receipt` is left out: PIL scaling and compositing, font metrics, the saved JPEG and the SMTP mail. It involves floating point and foreign code. Its call appears as a `Job`, and its failures are not modelled. The font's width is a function parameter of the wrap.
- The `csv` module's quoting and escaping are library code. A file is a sequence of string records, and a blank record is an empty one.
- `datetime.now`, `datetime.fromisoformat` and `time.monotonic` are clock and library calls. Times are abstract strings or integers given as parameters, and the date converter does not validate ISO format.
- Emailing.HandleAll and Receipts.Post use one `now` for every mail of a batch and every attachment of a post. The source calls `datetime.now()` anew each time (`emailing.py:122`, `slack_handlers.py:114`), so its stamps and request times may differ within one batch or post.
- `str()` of a `datetime` is not modelled. The string form of a timestamp is its stored text.
- `threading.Lock` and the daemon thread are concurrency. Execution is sequential.
- `os.access` is a file-system query. It is the `readPermitted` parameter of `Open`.
- Storage.PersistentTable.Sync: a failure of `os.remove` or of `shutil.move` itself is not modelled, and neither is a machine crash between the move and the close. The faults are a failed open, a failed write of one record, and a failed flush at the close after the move. A torn file is a prefix of whole records: a record cut in the middle is not represented.
- Decimal.ParseInt: the 4300-digit limit of `int()` and `str()` since Python 3.11 is not modelled. Past it, the source raises `ValueError` where the model reads or writes the number. The digit table is that of Unicode 15.0, the database of Python 3.12 and 3.13. Under Python 3.11 the Kawi and Nag Mundari digits are not digits.
- Emailing.ParseNotice: reads the invoice line with `Decimal.ParseInt`, so it has the same digit limit.
- Storage.PersistentTable.Length: `len(table)` is the row count. It is not in the table above, because it only returns `|items|`.
- `__iter__` is the row sequence, which `FindLast` walks. `close` and the context manager only call `sync`. `__str__` and `get_lock` are not modelled: one is formatting, the other belongs to the threads.
- `handle_im` only replies "Fight me", and the logging calls and `print`s have no effect on state. Neither is modelled.
- The message keys `ts`, `mimetype` and `url_private` are assumed present. A missing one would raise `KeyError`; the model covers missing `user`, `text`, `files`, `thread_ts`, `channel` and `channel_type` instead.
- Emailing.ProcessEmail: the reply's channel is a parameter, because the imported `REIMBURSEMENT_CHANNEL` is not defined in `slack_handlers.py`.
- The test and demo code is left out: `test_receive`, `test`, `thread_test` and the `__main__` blocks.
