# parserT SMS forwarding core, in Dafny

parserT is an Android app (React Native, with a native Java receiver) that
listens for incoming SMS from a fixed list of banks and mobile-money senders.
It stores each message, newest first, and uploads it as JSON to a home server
(`POST <server>/upload-sms`). It keeps an upload log, retries failed uploads on
request, and shows the messages with a transaction type, a title, a relative
time and a Parsed/Pending badge.

This project models that core and proves properties of it:

- `ledger.dfy` (module `Ledger`): the message record, the upload outcome, the
  capped newest-first lists, update by id, the result of one upload, and the
  retry sweep. These are the specification functions of the service, with
  lemmas about them.
- `service.dfy` (module `Service`): the `SMSService` singleton as a class. Its
  fields stand for the in-memory server URL and the three storage keys
  (`server_url`, `sms_messages`, `upload_logs`). The methods that save,
  upload, update, log and retry are proved against the functions of `Ledger`.
  The constructor, the two getters and `clearData` are specified directly on
  the fields.
- `whitelist.dfy` (module `Whitelist`): the fourteen-entry sender whitelist, in
  both its hook version and its receiver version (a loop that returns at the
  first match). A lemma proves the two agree on every sender.
- `receiver.dfy` (module `Receiver`): the native broadcast receiver. Its PDU
  loop forwards only whitelisted messages, in order, and skips PDUs that fail
  to decode.
- `ingestion.dfy` (module `Ingestion`): the `useSMSMessages` hook as a class
  that holds the React `messages` state and the service. It covers
  `addMessage`, the `onSMSReceived` listener, `readRecentSMS`,
  `loadMessages` and the hook's `retryFailedUploads`.
- `permissions.dfy` (module `Permissions`): `checkPermissions` of
  `useSMSPermissions`, including its react-native-permissions fallback.
- `message_item.dfy` and `message_card.dfy`: the pure display helpers of the
  two message components.
- `text.dfy` and `optional.dfy`: shared string machinery and an `Option` type.
  The string machinery covers ASCII case mapping, JavaScript's and Java's
  `trim`, substring search, decimal rendering, and `split`/`join`.

Whatever the running program takes from outside becomes a parameter:

- the network's answer to each upload is an `UploadOutcome`: a response
  status with its text, or a thrown value;
- `Date.now()` is a `now` argument, or a `clock(k)` for the `k`-th attempt of
  a sweep;
- the random part of a new id is a `suffix` argument;
- the native inbox batch is a `NativeReader` value;
- the permission checks' answers are a `PermissionSource` value.

## Model

| member | source | states |
|---|---|---|
| Ledger.ResolveUrl | src/services/SMSService.ts:24-35 | A stored non-empty URL overrides the in-memory one. An absent or empty stored URL leaves the in-memory one. |
| Ledger.SetThenGetUrl | src/services/SMSService.ts:19-35 | After `setServerUrl(u)`, reading the URL back gives `u`. |
| Ledger.ResolveUrlIdempotent | src/services/SMSService.ts:24-35 | Reading the URL again gives the same URL, so repeated uploads in one sweep all use one URL. |
| Ledger.PrependCapped | src/services/SMSService.ts:39-45 | The new element is at index 0 and the old list follows in its old order. The length is min(old + 1, cap). |
| Ledger.PushAllNewestFirst | src/services/SMSService.ts:37-47 | After prepending several elements one by one, the list is the newest-first sequence of them followed by the old list, cut to the cap. |
| Ledger.PushAllBounded | src/services/SMSService.ts:42-45 | After any number of prepends the list never exceeds its cap, and the last element prepended is at index 0. |
| Ledger.IndexOfId | src/services/SMSService.ts:118 | `findIndex` by id returns the first position holding the id, or none when no record has it. |
| Ledger.Replace | src/services/SMSService.ts:115-122 | Only the first record with the id is replaced. Length and every other record are kept, and nothing changes when no id matches. |
| Ledger.ReplaceKeepsIds | src/services/SMSService.ts:118-120 | A same-id update never changes which id sits at any position. |
| Ledger.ResultOf | src/services/SMSService.ts:89-112 | Success holds iff the status is 2xx, and an error is present iff there is no success. A non-ok response gives `HTTP <status>: <text>`. A thrown `Error` gives its message, and any other thrown value gives `Unknown error`. |
| Ledger.LogFor | src/services/SMSService.ts:158-165 | The log entry carries the message's id and sender, and the returned success and error. |
| Ledger.AfterUpload | src/services/SMSService.ts:95-112 | A failed upload leaves the stored list unchanged. |
| Ledger.UploadMarksRecord | src/services/SMSService.ts:89-94 | After an ok response, the stored record with that id is uploaded, keeps its id, and keeps the caller's attempt count. |
| Ledger.Pending | src/services/SMSService.ts:131 | The filter keeps only records that are not uploaded and is never longer than the list. |
| Ledger.Retried | src/services/SMSService.ts:135-141 | A retried record keeps id, sender, body and timestamp. On success it is uploaded with its attempts unchanged. On failure its attempts grow by one and its flag stays. |
| Ledger.SuccessCount | src/services/SMSService.ts:132-137 | The success count after `n` attempts is at most `n`. |
| Ledger.SuccessCountCounts | src/services/SMSService.ts:132-137 | The count is exactly the number of attempts that met a 2xx response. |
| Ledger.SweepLogStep | src/services/SMSService.ts:134-135 | One more retry prepends exactly its own log entry, capped at 10. |
| Ledger.SweepLogsEachAttempt | src/services/SMSService.ts:134-141 | The sweep writes one log entry per pending record, in stored order. Each entry has that record's id and sender and the success of its own attempt. |
| Ledger.RankGrows | src/services/SMSService.ts:131-134 | Pending records are visited in stored order: rank never decreases along the list and grows past each pending record. |
| Ledger.PendingAt | src/services/SMSService.ts:131-134 | The `k`-th record attempted is a record of the list that is not uploaded and has exactly `k` pending records before it. |
| Ledger.SweepKeepsIds | src/services/SMSService.ts:128-142 | The sweep keeps the length of the stored list and the id at every position. |
| Ledger.FindsOnlyPosition | src/services/SMSService.ts:118 | With unique ids, the update by id during the sweep lands on the record's own position. |
| Ledger.SweptAtStep | src/services/SMSService.ts:134-141 | Between attempt `k` and `k + 1`, only the record of rank `k` changes. |
| Ledger.SweepStep | src/services/SMSService.ts:134-141 | One attempt of the sweep moves the stored list from its state after `k` attempts to its state after `k + 1`, position by position. |
| Ledger.SweepSettlesPending | src/services/SMSService.ts:128-144 | With unique ids, after `n` attempts every uploaded record is untouched. A pending record of rank `r` < `n` has been retried with the `r`-th outcome, and the other pending records are untouched. |
| Ledger.NothingPending | src/services/SMSService.ts:128-144 | With nothing pending, the sweep returns 0 and leaves the stored list, the log and the URL as they were. |
| Service.SMSService.constructor | src/services/SMSService.ts:8-17 | The service starts with the default URL `http://192.168.1.100:8000` over whatever storage holds. |
| Service.SMSService.SetServerUrl | src/services/SMSService.ts:19-22 | Holds the URL in memory and stores it, so it is what the next read resolves to. |
| Service.SMSService.GetServerUrl | src/services/SMSService.ts:24-35 | Returns, and keeps in memory, the resolved URL. |
| Service.SMSService.SaveMessage | src/services/SMSService.ts:37-51 | Prepends the record and caps the list at 100, with the record at index 0. |
| Service.SMSService.GetMessages | src/services/SMSService.ts:53-64 | Returns the stored list. |
| Service.SMSService.UploadMessage | src/services/SMSService.ts:66-113 | Sends sender, body and timestamp to `<url>/upload-sms` and returns the result of the outcome. On success the stored record with that id is marked uploaded. Exactly one log entry, carrying that result, is prepended. |
| Service.SMSService.UpdateMessage | src/services/SMSService.ts:115-126 | Replaces the first stored record with that id. |
| Service.SMSService.RetryFailedUploads | src/services/SMSService.ts:128-149 | Attempts each record that was not uploaded, once and in stored order, and returns the number of successes, at most the number pending. The stored list, log and URL end as the sweep functions say. |
| Service.SMSService.LogUpload | src/services/SMSService.ts:151-178 | Prepends one entry stamped with `now` and keeps at most 10. |
| Service.SMSService.GetUploadLogs | src/services/SMSService.ts:180-191 | Returns the stored log. |
| Service.SMSService.ClearData | src/services/SMSService.ts:193-199 | Empties messages and logs. The URL, stored and in memory, is untouched. |
| Whitelist.IsWhitelistedSender | src/hooks/useSMS.ts:156-168 | The hook's test: an empty sender is rejected. Otherwise the sender is upper-cased and trimmed, and it is accepted iff some upper-cased entry of the fourteen occurs in it. NativeAgreesWithHook proves the receiver decides alike. |
| Whitelist.IsWhitelistedSenderNative | android/app/src/main/java/com/parsert/SMSReceiver.java:78-91 | False for a null sender. Otherwise true iff some entry, upper-cased, occurs in the upper-cased, trimmed sender. |
| Whitelist.ScanEntries | android/app/src/main/java/com/parsert/SMSReceiver.java:85-90 | The loop that returns at the first match decides exactly "some entry matches". |
| Whitelist.MatchOrderFree | android/app/src/main/java/com/parsert/SMSReceiver.java:85-90 | Only the set of entries matters, not their order. |
| Whitelist.EntriesHaveLetterEnds | src/hooks/useSMS.ts:159-162 | Every entry, upper-cased, starts and ends with a letter. |
| Whitelist.TrimDoesNotMatter | src/hooks/useSMS.ts:164-167 | Trimming, JavaScript's or Java's, never changes whether an entry matches. |
| Whitelist.NativeAgreesWithHook | android/app/src/main/java/com/parsert/SMSReceiver.java:37-40 | The receiver and the hook accept exactly the same non-null senders. |
| Whitelist.NullSenderRejected | android/app/src/main/java/com/parsert/SMSReceiver.java:79-81 | A null sender is never whitelisted. |
| Receiver.Forwarded | android/app/src/main/java/com/parsert/SMSReceiver.java:55-71 | Forwards at most one event per PDU, and only for senders the whitelist accepts. |
| Receiver.OnReceive | android/app/src/main/java/com/parsert/SMSReceiver.java:43-112 | Emits the forwarded events of the intent's PDUs, in order, when there is a React context, and nothing otherwise. Every event emitted has a whitelisted sender. |
| Receiver.ForwardedStep | android/app/src/main/java/com/parsert/SMSReceiver.java:55-71 | One more PDU adds at most its own event, at the end. |
| Receiver.ForwardedAppend | android/app/src/main/java/com/parsert/SMSReceiver.java:55-71 | PDUs are handled independently: forwarding a concatenation is forwarding each part. A failing PDU does not stop the rest. |
| Receiver.YieldsStep | android/app/src/main/java/com/parsert/SMSReceiver.java:55-71 | Some PDU of a longer sequence yields an event iff one of the shorter does or the last one does. |
| Receiver.ForwardedExactly | android/app/src/main/java/com/parsert/SMSReceiver.java:55-71 | An event is forwarded iff some PDU decodes to exactly that sender, body and timestamp with an accepted sender. |
| Receiver.EmittedPassHook | android/app/src/main/java/com/parsert/SMSReceiver.java:66-67 | Every event the receiver emits also passes the hook's whitelist. |
| Receiver.IgnoredBroadcasts | android/app/src/main/java/com/parsert/SMSReceiver.java:46-54 | Another action, a missing bundle or a missing PDU array emits nothing. |
| Ingestion.NewRecord | src/hooks/useSMS.ts:172-179 | The new record carries sender, body and timestamp, is not uploaded, and has no attempt. |
| Ingestion.IdStartsWithTimestamp | src/hooks/useSMS.ts:173 | The id begins with `<timestamp>_`, and its part before the first underscore is the timestamp. |
| Ingestion.IdsOfDistinctTimestampsDiffer | src/hooks/useSMS.ts:173 | Records for different timestamps never share an id, whatever their random parts. |
| Ingestion.AddSettlesHead | src/hooks/useSMS.ts:181-207 | In storage, adding a message amounts to prepending it already settled: uploaded with 0 attempts on success, not uploaded with 1 attempt on failure. The list stays capped at 100. |
| Ingestion.ShownAfterAddSettles | src/hooks/useSMS.ts:183-206 | In the shown list the settled record is at index 0. Records with another id are untouched, and older records sharing the id are settled too. |
| Ingestion.ShownAfterAddFresh | src/hooks/useSMS.ts:183-206 | With a fresh id, the shown list is the settled record followed by the old list. |
| Ingestion.Ingested | src/hooks/useSMS.ts:144-150 | A batch adds at most one record per row. |
| Ingestion.IngestedAccepted | src/hooks/useSMS.ts:144-150 | Every record a batch adds comes from a row the whitelist accepts, with that row's sender, body and timestamp. It is uploaded iff it has no attempt counted. |
| Ingestion.IngestedLogs | src/hooks/useSMS.ts:144-150 | A batch writes exactly one log entry per record it adds. |
| Ingestion.IngestedEmptyIff | src/hooks/useSMS.ts:144-150 | A batch adds nothing iff none of its senders is whitelisted. |
| Ingestion.StoredAfterBatch | src/hooks/useSMS.ts:144-150 | After a batch the stored list is its added records, last first, ahead of the old list, cut to 100. The batch's last whitelisted message is at index 0. |
| Ingestion.AcceptedRowStep | src/hooks/useSMS.ts:145-148 | A whitelisted row changes storage, log, shown list and URL exactly as one `addMessage`. |
| Ingestion.RejectedRowStep | src/hooks/useSMS.ts:145-148 | A row that is not whitelisted changes nothing. |
| Ingestion.SMSMessagesHook.constructor | src/hooks/useSMS.ts:112-116 | The hook starts with an empty list, loading, over the service singleton, with the hook's whitelist test. |
| Ingestion.SMSMessagesHook.LoadMessages | src/hooks/useSMS.ts:118-128 | Shows the stored list and ends not loading. |
| Ingestion.SMSMessagesHook.AddMessage | src/hooks/useSMS.ts:170-214 | Makes exactly one upload attempt. The `result` it gives back is the local `uploadResult`, the outcome's result; `addMessage` itself resolves to nothing. Storage, log, URL and shown list end as saving, uploading and settling the new record make them; these four together are one `AfterAdd` step, the step a batch repeats. |
| Ingestion.SMSMessagesHook.OnSMSReceived | src/hooks/useSMS.ts:236-247 | Passes the event straight to `addMessage`, with no whitelist check of its own. |
| Ingestion.SMSMessagesHook.ReadRecentSMS | src/hooks/useSMS.ts:130-154 | Adds each whitelisted row of the batch in batch order and no other row. Nothing happens when the module or its method is missing or the call rejects. |
| Ingestion.SMSMessagesHook.RetryFailedUploads | src/hooks/useSMS.ts:216-225 | Runs the service's sweep: the stored list, log and URL are the sweep's. It then shows the stored list and ends not loading. Like the source, it returns nothing; the sweep's count goes only to a toast. |
| Permissions.FallbackStatus | src/hooks/useSMS.ts:34-44 | Each permission holds iff its check returned GRANTED. `hasAllPermissions` holds iff both did. |
| Permissions.FallbackKeepsConsistent | src/hooks/useSMS.ts:33-44 | A check that falls back, or is skipped, keeps `hasAllPermissions` equal to "both permissions". |
| Permissions.FallbackAllOnlyIfGranted | src/hooks/useSMS.ts:37-43 | The fallback reports all permissions only when both checks return GRANTED. |
| Permissions.PermissionsHook.constructor | src/hooks/useSMS.ts:15-21 | The hook starts with no permissions, not loading. |
| Permissions.PermissionsHook.CheckPermissions | src/hooks/useSMS.ts:23-51 | Does nothing off Android. Otherwise it takes the native module's report or the fallback's status, keeps the old status when a call rejects, and ends not loading. |
| MessageItem.GetTransactionType | src/components/MessageItem.tsx:37-53 | Sent iff a debit word occurs, even alongside a credit word. Received iff no debit word and a credit word occurs. Other otherwise. |
| MessageItem.CreditedIsRedundant | src/components/MessageItem.tsx:45-49 | The `credited` test never decides anything: `received` or `credit` alone decide "received". |
| MessageItem.GetStatusBadge | src/components/MessageItem.tsx:55-60 | The badge is Parsed, `#4CAF50`, iff the record is uploaded, and Pending, `#FF9800`, otherwise. |
| MessageItem.ElapsedMinutes | src/components/MessageItem.tsx:17-19 | The elapsed minutes are the floor of the elapsed milliseconds over 60000, negative ones included. |
| MessageItem.AgeOf | src/components/MessageItem.tsx:16-28 | Below 60 minutes the age is the minutes themselves. Below 1440 it is whole hours, 1 to 23. Beyond that it is whole days, at least 1. Each count brackets the elapsed minutes. |
| MessageItem.FormatTimestamp | src/components/MessageItem.tsx:16-28 | With `d` the floored elapsed minutes: `<d>m ago` below 60, `<d/60>h ago` below 1440, `<d/1440>d ago` beyond, with the unit letter of AgeOf's bucket. RenderAgeInjective proves the text determines the bucket and count. |
| MessageItem.RenderAgeInjective | src/components/MessageItem.tsx:21-27 | The rendered text (`<n>m ago`, `<n>h ago`, `<n>d ago`) determines both bucket and count. |
| MessageItem.FilterNonBlank | src/components/MessageItem.tsx:64 | A line is kept iff it is one of the input lines and its trim is non-empty; every kept line is non-blank. |
| MessageItem.FilterNonBlankAppend | src/components/MessageItem.tsx:64 | The filter keeps order: filtering a concatenation is filtering each part, in turn. |
| MessageItem.FilterNonBlankFirst | src/components/MessageItem.tsx:64-74 | The first kept line is the first non-blank line of the body, so `lines[0]` is it. |
| MessageItem.GetTransactionDescription | src/components/MessageItem.tsx:62-75 | Returns the first non-blank line naming a counterparty (`to `, `from `, `at `), trimmed. Failing that it returns the first non-blank line, trimmed, and for a blank body the first 50 characters and `...`. The result is never empty. |
| MessageItem.NonBlankIffTrimmed | src/components/MessageItem.tsx:64 | The filter's test (some character is not whitespace) holds iff `line.trim()` is non-empty. |
| MessageItem.NoLinesIffBlank | src/components/MessageItem.tsx:64 | The filter leaves nothing iff every line is blank. |
| MessageCard.Shorten | src/components/MessageCard.tsx:43 | At most 33 characters. A word string of up to 30 is kept as is; a longer one keeps its first 30 characters followed by `...`. |
| MessageCard.ExtractTitle | src/components/MessageCard.tsx:31-44 | The title of the first keyword found, in the order swiggy, amazon, cafe, credited, otp. Without a keyword, the body up to its fourth space, shortened. Never longer than 33. |
| MessageCard.TitleIgnoresSender | src/components/MessageCard.tsx:31-44 | The sender never affects the title. |
| MessageCard.FormatTime | src/components/MessageCard.tsx:46-58 | The card's own copy of the buckets ends in `m`, `h` or `d` and ` ago`. Its count is the bucket's: FormatTimeAgrees proves the text equals MessageItem.FormatTimestamp's, whose contract gives the number per bucket. |
| MessageCard.FormatTimeAgrees | src/components/MessageCard.tsx:46-58 | The card's relative time equals the list item's for every clock and timestamp. |
| MessageCard.StatusLabel | src/components/MessageCard.tsx:62-83 | The label is Parsed iff the record is uploaded, Pending otherwise. |
| MessageCard.StatusLabelAgrees | src/components/MessageCard.tsx:78-83 | The card's label and color are the list item's badge. |
| Text.Trim | src/hooks/useSMS.ts:164 | A trimmed string is no longer than the original, and neither end is a trimmed character. |
| Text.TrimEmptyIffBlank | src/components/MessageItem.tsx:64 | Trimming leaves nothing iff every character is trimmed. |
| Text.ContainsTrim | src/hooks/useSMS.ts:164-166 | Trimming the haystack never changes whether a needle occurs, provided the needle has no trimmed character at either end. |
| Text.ContainsTransitive | src/components/MessageItem.tsx:47-48 | Substring containment is transitive. |
| Text.NatToString | src/hooks/useSMS.ts:173 | Decimal rendering is non-empty, all digits, and has no leading zero. |
| Text.DigitsValueOfNatToString | src/hooks/useSMS.ts:173 | Reading the digits back gives the number. |
| Text.IntToString | src/services/SMSService.ts:159 | A rendered integer is digits with a leading `-` iff it is negative. |
| Text.IntToStringInjective | src/hooks/useSMS.ts:173 | Distinct integers render differently. |
| Text.Split | src/components/MessageCard.tsx:42 | `split` yields at least one piece, and no piece contains the separator. |
| Text.JoinSplit | src/components/MessageCard.tsx:42 | Joining the pieces of a split restores the string. |
| Text.SplitHead | src/hooks/useSMS.ts:173 | The first piece of a split is everything before the first separator. |
| Text.PrefixBeforeNth | src/components/MessageCard.tsx:42 | The prefix before the `n`-th separator has fewer than `n` separators and is followed by a separator or the end. |
| Text.JoinTakeSplit | src/components/MessageCard.tsx:42 | `split(sep).slice(0, n).join(sep)` is the prefix before the `n`-th separator. |

## Left out

- Storage is modelled as fields that every read and write reaches. AsyncStorage, JSON encoding and write failures are not modelled. Each `catch` around storage in the service is therefore never taken. The `catch` blocks of `addMessage`, `readRecentSMS` and the hook's retry, which only log and show a toast, are left out for the same reason.
- The HTTP request itself is not modelled: `fetch`, its headers, the 10-second abort timer and the JSON body. Only the request's URL and fields and the outcome are modelled. The abort timer's effect is one kind of thrown outcome.
- Concurrency is not modelled: the hook's asynchronous callbacks interleaving with each other or with the receiver. Each operation runs to completion in the model.
- `logUpload` reads `Date.now()` twice, for the entry's id and its timestamp. The model uses one `now` for both.
- Service.SMSService.RetryFailedUploads: a stored record without an `uploadAttempts` field (counted as 0 by `|| 0`) is not modelled, because the record's attempt count is a `nat`.
- Timestamps are integers of milliseconds. Fractional or non-finite numbers, and JavaScript's exponent notation for numbers of 10^21 and above, are not modelled. The receiver's `long` becomes a double on its way to JavaScript, and that conversion is not modelled either. A timestamp beyond ±8.64e15 ms makes `new Date(timestamp)` invalid, and the components then print `NaNd ago`, since every comparison with NaN fails and the days branch is taken; MessageItem.FormatTimestamp and MessageCard.FormatTime print a count for every integer.
- `toUpperCase` and `toLowerCase` are modelled on ASCII letters only. Unicode case mapping is not modelled, and neither is the device locale that Java's `toUpperCase()` follows in the receiver. In a Turkish locale the entry "Safaricom" upper-cases to "SAFARİCOM", so the receiver rejects the sender "SAFARICOM" that the hook accepts. Whitelist.NativeAgreesWithHook holds for the locale-independent mapping only.
- MessageCard.Shorten: lengths and the 30-character cut count Unicode code points, while JavaScript's `length` and `substring` count UTF-16 code units. For characters outside the Basic Multilingual Plane the results differ: sixteen emoji are 32 units, so the source cuts them to fifteen and `...`, while the model keeps all sixteen.
- MessageCard.ExtractTitle: the fallback title inherits that difference from Shorten. The keyword titles are unaffected.
- The receiver can send a null body across the bridge. `SMSModule.readRecentSMS` can also put a null sender or a null body into its rows. The hook's `SMSMessage` fields are strings, so the listener and `RawSms` take strings. A null sender would be rejected by `!sender` just as the empty string is.
- The receiver asks for the React context once per PDU. The model takes one context flag per broadcast.
- Ingestion.SMSMessagesHook.RetryFailedUploads: the hook resolves to `undefined`, and the model returns nothing either. Its caller in App.tsx:74-80 nevertheless reads the awaited value as a count, so its alert reads `undefined messages uploaded successfully`. App.tsx is not part of this model.
- React plumbing is not modelled: effects, subscriptions, `useCallback` dependencies and re-renders. Toasts and console logging are not modelled either.
- `requestPermissions` is not modelled. It discards the native module's answer, calls `testSMSReceiver` (or `request` twice in the fallback), re-runs `checkPermissions`, and returns the `hasAllPermissions` its closure captured before the request. The `onPermissionResult` listener, which sets the status from a native event, is not modelled either.
- `extractAmount` in both components is not modelled. It depends on a regular-expression engine.
- `SMSModule.java`, `MainActivity.kt`, `SettingsScreen.tsx`, the other presentation components and `test_server.py` are not part of this model.
- The code holds no duplicate check, no sync or last-sync timestamp, and no use of a configurable allow-list (`AppConfig.whitelistedSenders` in src/types/index.ts:21-25 is never read). The model has none of them either: `readRecentSMS` adds every whitelisted row it reads, even one already stored.
