# Weekly report pipeline — a Dafny model

This project models the deterministic core of `auto_email`, a tool that:

- collects the daily-report emails of the current week from an IMAP mailbox;
- orders and formats them into one prompt;
- asks a chat-completion API for a weekly summary;
- stores the result as a draft in the mailbox.

Each piece of the core has its own module:

- `Fetcher` covers `EmailFetcher`: folder selection, the `SINCE` search from this week's Monday, and the loop that keeps a message when its subject has the keyword and its body is non-empty.
- `Mime` covers the body choice over `walk()` and the Subject decoding.
- `Digest` covers `AIAssistant._format_reports`. That is the sort by Date header, with "now" for a missing date. Each report gets a 1-based numbered section with its date label, and the sections are joined with a blank line. When the sort raises, the result is the raw dump.
- `Summary` covers `generate_weekly_summary`. It builds the request payload and classifies the answer.
- `Settings` covers `validate_config` and `get_missing_config`.
- `Sender` covers `EmailSender`. `create_message` assembles the draft on a `MimeMultipart` object. `save_to_drafts` reports a boolean.

Three modules support them:

- `Calendar` does the Gregorian date arithmetic behind `date.weekday()` and `timedelta`, and the IMAP `date-text` of section 6.4.4 of RFC 3501.
- `Imap` models the server as a value held by a `Connection` object that records the commands the client issues.
- `Text` provides substring search, decimal numerals, `join` and `upper`.

Library routines the code calls are parameters of the model:

- UTF-8 decoding with `errors='ignore'`
- RFC 2047 encoded-word splitting
- `parsedate_to_datetime`
- `strftime`
- `str(list)`
- the JSON decoder
- the HTTP transport
- the image-type guess of `MIMEImage`

The clock is a parameter as well: `today`, `now` and the UTC append time. So is the subject keyword of `fetch_weekly_reports` and `fetch_drafts`, whose default in the code is "日报".

imaplib sends every command argument as ASCII. A folder name, user name or password with any other character (a drafts folder called 草稿箱, say) raises before the command reaches the server, and the model answers such a command with an exception.

`auto_weekly_report.py` is an older single-file copy of the same classes. Lines 130-360 of it match `utils/email_fetcher.py` and `utils/ai_assistant.py` statement for statement, so the same members model both files. Its `EmailSender` differs only in `create_message`: the body is one plain UTF-8 text part and there is no image. `Sender.BodyStyle.PlainUtf8` selects that variant.

A report with no usable date is labelled 未知日期 only when every dated report has a naive timestamp (zone `-0000`, missing or unrecognised). Otherwise:

- an unparseable Date header makes the sort key raise;
- a missing date gets a naive `datetime.now()` key, and comparing it with an aware parsed date raises `TypeError`.

Either way the whole digest becomes the raw dump (`Digest.UnparseableDateFallsBack`, `Digest.UndatedBesideAwareFallsBack`).

`get_missing_config` reports `IMAP_SMTP_SERVER`, `IMAP_USERNAME` and `IMAP_PASSWORD`, but the environment variables actually read are `SMTP_SERVER`, `EMAIL_USERNAME` and `EMAIL_PASSWORD`. The model keeps the names the code prints.

## Model

| member | source | states |
|---|---|---|
| Calendar.ThisMonday | utils/email_fetcher.py:85-86 | defines `today - timedelta(days=today.weekday())`: a valid date whose day number is today's minus the weekday; ThisMondayIsWeekStart states what that day is |
| Calendar.DateText | utils/email_fetcher.py:87 | defines `strftime("%d-%b-%Y")`: two-digit day, English month abbreviation, decimal year; ParseDateTextRoundTrip and DateTextLength state its properties |
| Calendar.ThisMondayIsWeekStart | utils/email_fetcher.py:85-86 | today minus `weekday()` days is a Monday, on or before today, at most 6 days earlier, and later than every other Monday up to today |
| Calendar.DaysBefore | utils/email_fetcher.py:86 | `d - timedelta(days=n)` is a valid date exactly n day numbers earlier |
| Calendar.Yesterday | utils/email_fetcher.py:86 | the previous day is a valid date one day number earlier |
| Calendar.ParseDateTextRoundTrip | utils/email_fetcher.py:87 | the `%d-%b-%Y` text of every date reads back as that date |
| Calendar.DateTextLength | utils/email_fetcher.py:87 | for four-digit years the text is the 11-character `DD-Mon-YYYY` of RFC 3501 |
| Calendar.ParseDateText | utils/email_fetcher.py:87 | whatever the date text reads back as is a valid date |
| Imap.ParseSinceRoundTrip | utils/email_fetcher.py:90 | the quoted `SINCE` criterion is read by the server as exactly the intended Monday |
| Imap.IdsSinceExact | utils/email_fetcher.py:90-95 | the search hits are exactly the messages dated on or after the day, in strictly ascending order, at most one per message |
| Imap.UnquoteQuote | utils/email_fetcher.py:64 | a quoted folder name is read back as the name when it has no quote or backslash, and rejected otherwise |
| Imap.FolderReplies | utils/email_fetcher.py:64 | SELECT and APPEND of a quoted folder name are answered OK exactly when the connection is live, the name is ASCII with nothing to escape and names a mailbox; they raise exactly when the connection is lost or the name is non-ASCII or unquotable; NO otherwise |
| Imap.NonAsciiFolderRaises | utils/email_sender.py:110-115 | a folder named 草稿箱 makes both SELECT and APPEND raise, because imaplib cannot encode it |
| Imap.Connection.Select | utils/email_fetcher.py:64 | SELECT answers from the server state and selects the mailbox only on OK |
| Imap.Connection.Search | utils/email_fetcher.py:90 | SEARCH answers from the selected mailbox and changes nothing |
| Imap.Connection.Fetch | utils/email_fetcher.py:101 | FETCH answers from the selected mailbox; the modelled state (mailboxes, selection, transcript of other commands) is unchanged, message flags not being part of it |
| Imap.Connection.Login | utils/email_sender.py:107 | LOGIN raises unless the server is reachable, accepts the login and both credentials are ASCII; a successful LOGIN leaves the session authenticated with no mailbox selected |
| Imap.Connection.Append | utils/email_sender.py:110-115 | APPEND stores the message exactly when it is answered OK; a missing folder is answered NO without raising |
| Fetcher.EmailFetcher.SelectFolder | utils/email_fetcher.py:53-71 | True exactly when the server answers OK to the quoted name; False on NO and on an exception |
| Fetcher.EmailFetcher.Enter | utils/email_fetcher.py:33-42 | fails exactly when LOGIN raises (a refused login, a lost connection, non-ASCII credentials); otherwise the session is authenticated and then the sent folder is selected, or nothing is selected when that SELECT fails |
| Fetcher.EmailFetcher.FetchWeeklyReports | utils/email_fetcher.py:73-122 | the filter loop returns exactly the reports of the specification over the FETCH replies to the search hits; a failed search gives [] |
| Fetcher.EmailFetcher.FetchDrafts | utils/email_fetcher.py:124-136 | when the drafts folder cannot be selected: [] and no command after the SELECT; otherwise the weekly reports of that folder |
| Fetcher.NewEmailFetcher | utils/email_fetcher.py:22-31 | construction succeeds exactly when server, username and password are all non-empty |
| Fetcher.Contribution | utils/email_fetcher.py:100-117 | defines what one FETCH reply adds to the results; ContributionIff states when it yields a report and which |
| Fetcher.WeeklyReports | utils/email_fetcher.py:83-122 | defines the result of `fetch_weekly_reports` on a server state: the collected contributions of the replies to the SINCE search hits, or [] when the search is not answered OK; WeeklyReportsSound and WeeklyReportsComplete state its meaning |
| Fetcher.ProcessReply | utils/email_fetcher.py:100-117 | the per-message step contributes exactly what the filter specification assigns to that FETCH reply (nothing for a failed fetch) |
| Fetcher.ContributionIff | utils/email_fetcher.py:101-113 | a reply yields a report exactly when it is OK, its decoded subject contains the keyword and its body is non-empty; the report carries the Date header and that body |
| Fetcher.CollectAppend | utils/email_fetcher.py:98-117 | results keep the order of the mail ids, and each message contributes independently of the others |
| Fetcher.SkippedReply | utils/email_fetcher.py:102-117 | a failed or non-matching message is skipped and the later messages are still processed |
| Fetcher.CollectExact | utils/email_fetcher.py:107-113 | a report is returned exactly when some reply contributes it |
| Fetcher.CollectBound | utils/email_fetcher.py:98-113 | never more reports than FETCH replies |
| Fetcher.WeeklyReportsSound | utils/email_fetcher.py:85-113 | every report comes from a message of the selected mailbox dated this Monday or later whose subject has the keyword and whose body is the report's non-empty text |
| Fetcher.WeeklyReportsComplete | utils/email_fetcher.py:85-113 | when the selected mailbox answers the search, every message dated this Monday or later that was fetched, whose subject has the keyword and whose body is non-empty gives its report in the results |
| Fetcher.UnselectedAfterEnter | utils/email_fetcher.py:36-38 | when the sent folder cannot be selected after a successful login, no mailbox is selected, so the weekly search raises and gives [] |
| Fetcher.WeeklyReportsFailedSearch | utils/email_fetcher.py:91-93 | a search not answered OK gives no reports |
| Fetcher.WeeklyReportsBound | auto_weekly_report.py:195-219 | at most one report per search hit (the legacy copy uses the same loop) |
| Fetcher.ValidConfigBuildsFetcher | utils/config.py:38-53 | a configuration that passes `validate_config` passes the fetcher's constructor check |
| Mime.DecodeHeader | utils/email_fetcher.py:148-158 | defines `_decode_header`: "" for a missing or empty header or a failed split, else the first segment, UTF-8 decoded when it is encoded; the two DecodeHeader lemmas state its properties |
| Mime.EmailBody | utils/email_fetcher.py:160-187 | defines the body `_extract_email_body` returns; FirstBodyPayloadIsFirst and MultipartBodySource state which part it is |
| Mime.ExtractEmailBody | utils/email_fetcher.py:160-187 | the loop over `walk()` with early return computes the body of the specification: the first text/plain, non-attachment part with a non-empty payload; the own payload of a non-multipart message; otherwise "" |
| Mime.FirstBodyPayloadIsFirst | utils/email_fetcher.py:171-179 | a body payload is found exactly when some walked part qualifies, and it is the earliest qualifying one; parts with empty payloads are passed over |
| Mime.MultipartBodySource | utils/email_fetcher.py:171-184 | a multipart body is the UTF-8 text of the earliest qualifying part, or "" when none qualifies |
| Mime.Walk | utils/email_fetcher.py:172 | the depth-first walk starts with the entity itself |
| Mime.DecodeHeaderFirstSegmentOnly | utils/email_fetcher.py:152 | segments after the first never influence the decoded subject |
| Mime.DecodeHeaderIgnoresCharset | utils/email_fetcher.py:152-154 | an encoded first segment is read as UTF-8 whatever charset it declares |
| Digest.SortSucceeds | utils/ai_assistant.py:96-99 | defines when `sorted` returns: every key parses and the keys are all naive or all aware; the FallsBack lemmas state the two ways it raises |
| Digest.Label | utils/ai_assistant.py:104-109 | defines the date label: 未知日期 without a date, the rendered parsed date otherwise, None where parsing or rendering raises |
| Digest.Section | utils/ai_assistant.py:111-114 | defines one numbered section, with or without its date label; SectionShape states its shape |
| Digest.FormattedDigest | utils/ai_assistant.py:94-120 | defines `_format_reports`: the sections of the sorted reports joined by a blank line, or the raw dump when the sort raises; DigestLayout states its layout |
| Digest.Insert | utils/ai_assistant.py:96-99 | inserting into a strictly ordered run keeps it strictly ordered (by key, then input position), adds exactly that item, and holds no other elements |
| Digest.Sort | utils/ai_assistant.py:96-99 | the sort yields a strictly ordered permutation of its input |
| Digest.SortIsStablePermutation | utils/ai_assistant.py:96-99 | the sorted reports are the input reports, each used once, with non-decreasing keys; equal keys keep their input order |
| Digest.FormatReports | utils/ai_assistant.py:94-120 | the enumerate loop builds exactly the specified digest: numbered sections joined by a blank line, or the raw dump when the sort raises |
| Digest.DigestLayout | utils/ai_assistant.py:101-116 | the digest has one section per report; section k is numbered k+1, holds the k-th report in sorted order, and is followed by a blank line before the next |
| Digest.FormatEntry | utils/ai_assistant.py:102-114 | one pass of the enumerate loop produces exactly the specified section for that position and report |
| Digest.SectionShape | utils/ai_assistant.py:104-114 | a section opens with its 1-based number and ends with the report's body; an undated report is labelled 未知日期; a report whose label fails keeps its body under a header without a date |
| Digest.UndatedBesideAwareFallsBack | utils/ai_assistant.py:96-99 | an undated report beside one with an aware date makes the comparison raise, so the digest is the raw dump of the input |
| Digest.UnparseableDateFallsBack | utils/ai_assistant.py:98 | an unparseable Date header makes the key raise, so the digest is the raw dump |
| Digest.FallbackWhenSortRaises | utils/ai_assistant.py:117-120 | when the sort raises, the digest is the dump of the unsorted input |
| Digest.AllUndatedKeepOrder | auto_weekly_report.py:338-355 | with no dates, the sort succeeds, keeps input order, and labels every section "未知日期" |
| Summary.Classify | utils/ai_assistant.py:66-82 | defines the outcome of the POST: network error (a transport failure or a body that is not JSON), HTTP error with status and text, bad response, or the reply content; HttpErrorNamesStatusAndText, OkStatusFailures and ReplyContentOfAnswer state its cases |
| Summary.OkStatusFailures | utils/ai_assistant.py:68-79 | a 200 answer whose text is not JSON fails as a network error, since `requests.JSONDecodeError` is a `RequestException`; valid JSON without the content field fails as a bad response |
| Summary.WeeklySummary | utils/ai_assistant.py:30-82 | defines `generate_weekly_summary`: the fixed message without reports, otherwise the classified answer to the request; GeneratedIff states when a summary comes back |
| Summary.NoReportsSendsNothing | utils/ai_assistant.py:43-45 | no reports give exactly the fixed message, and no request is built |
| Summary.RequestFor | utils/ai_assistant.py:43-66 | a request is built exactly when there are reports |
| Summary.RequestCarriesDigest | utils/ai_assistant.py:51-66 | the payload holds the model, exactly a system message with the prompt then a user message with the digest, and `stream` false; bearer token, JSON content type, 30 s timeout |
| Summary.HttpErrorNamesStatusAndText | utils/ai_assistant.py:72-75 | a status other than 200 raises with a message containing the status code and the response text |
| Summary.GeneratedIff | utils/ai_assistant.py:68-71 | a summary is returned exactly when there are reports, the server answers 200 and the JSON has `choices[0].message.content`, which is returned |
| Summary.ReplyContentOfAnswer | utils/ai_assistant.py:69 | the content of a well-formed answer is its first choice's message content |
| Summary.NewAssistant | utils/ai_assistant.py:21-28 | construction succeeds exactly when the API key is non-empty; otherwise the ValueError message |
| Summary.ValidConfigBuildsAssistant | utils/config.py:50-51 | a valid configuration always yields an assistant |
| Settings.ValidateConfig | utils/config.py:38-53 | defines `validate_config`: the four mailbox items and the API key are all non-empty; ValidIffNothingMissing relates it to MissingConfig |
| Settings.MissingConfig | utils/config.py:55-69 | defines the list `get_missing_config` returns, in its order; GetMissingConfig and MissingConfigDistinct state its properties |
| Settings.GetMissingConfig | utils/config.py:55-69 | the loop lists `IMAP_` plus the upper-cased key for each unset mailbox item, in the order server, smtp_server, username, password, then `AI_API_KEY` if the key is unset |
| Settings.MissingImapRequired | utils/config.py:60-63 | over the four required keys, the loop's names are IMAP_SERVER, IMAP_SMTP_SERVER, IMAP_USERNAME and IMAP_PASSWORD |
| Settings.ValidIffNothingMissing | utils/config.py:38-69 | `validate_config` holds exactly when `get_missing_config` is empty |
| Settings.MissingConfigDistinct | utils/config.py:57-69 | at most five names, none repeated |
| Settings.UncheckedItemsIrrelevant | utils/config.py:15-69 | folders, API URL, model, prompt and report items never affect either result |
| Sender.MimeMultipart.constructor | utils/email_sender.py:47 | `MIMEMultipart()` starts with the headers Content-Type multipart/mixed and MIME-Version 1.0, and no parts |
| Sender.DraftFor | utils/email_sender.py:33-68 | defines the message `create_message` returns; DraftHeaderRules and DraftPartRules state its headers and parts |
| Sender.MimeMultipart.SetHeader | utils/email_sender.py:48-53 | a header assignment appends that header and leaves the parts alone |
| Sender.MimeMultipart.Attach | utils/email_sender.py:55 | `attach` appends that part and leaves the headers alone |
| Sender.EmailSender.CreateMessage | utils/email_sender.py:47-68 | the message built step by step is exactly the draft of the specification |
| Sender.EmailSender.SetAddressHeaders | utils/email_sender.py:48-53 | appends From, To only when given, Cc only when given, then Subject |
| Sender.EmailSender.AttachImage | utils/email_sender.py:58-66 | adds the image part only when the file was read and its type recognised; any failure leaves the message as it was |
| Sender.DraftHeaderRules | utils/email_sender.py:47-53 | the two headers of `MIMEMultipart()` come first, once each; then From is the username and Subject the subject, once each, and To and Cc appear exactly when non-empty; there are no other headers |
| Sender.DraftPartRules | utils/email_sender.py:55-66 | the content is the first part, as HTML; the image with Content-ID `<image1>` is the second part exactly when the file was read and recognised; nothing else |
| Sender.EmailSender.constructor | auto_weekly_report.py:58-67 | keeps the credentials and folder names once the check has passed |
| Sender.NewEmailSender | utils/email_sender.py:23-31 | construction succeeds exactly when smtp_server, username and password are all non-empty |
| Sender.ValidConfigBuildsSender | utils/config.py:41-47 | a valid configuration passes the sender's constructor check |
| Sender.EmailSender.AppendToDrafts | utils/email_sender.py:105-119 | logs in, then APPENDs the message to the quoted drafts folder at the given UTC time; raises when login raises |
| Sender.EmailSender.SaveToDraftsAsWritten | utils/email_sender.py:84-93 | as written: True unless something raised, including when the APPEND is refused with NO; never raises |
| Sender.SavedAsWrittenIff | auto_weekly_report.py:98-106 | the as-written flag holds exactly when the draft was stored or the APPEND was answered NO |
| Sender.MissingFolderReportedAsSaved | utils/email_sender.py:110-115 | a live server without the drafts folder: the as-written flag is True and no draft is stored |
| Sender.EmailSender.SaveToDrafts | utils/email_sender.py:84-119 | corrected: True exactly when one draft was stored, and nothing is stored otherwise |
| Sender.DraftSavedIff | utils/email_sender.py:106-115 | the corrected flag holds exactly when the server is up, accepts the login, the credentials and the folder name are ASCII, and the (quotable) drafts folder exists |
| Text.ContainsIffOccurs | utils/email_fetcher.py:109 | `keyword in subject` holds exactly when the keyword occurs at some position |
| Text.JoinLayout | utils/ai_assistant.py:116 | each part of a join sits at its offset, with the separator between consecutive parts |
| Text.ParseDecimalOfDecimal | utils/ai_assistant.py:111 | the section number's decimal text reads back as the number |

## Left out

- IMAP connection lifecycle: opening `IMAP4_SSL`, `close` and `logout` in `__exit__`. The connection object is given; a lost connection is a server state in which every command raises.
- `Time2Internaldate` and `as_bytes()` serialisation: the append takes the UTC time as an integer and the draft as a value.
- `requests.post` and `response.json()`: they are parameters; a transport failure is one outcome. A body that is not JSON is treated as a network error, because from requests 2.27 on `response.json()` raises `requests.JSONDecodeError`, a `RequestException`; older versions raise a plain `ValueError`, which the code reports under its general handler instead.
- `parsedate_to_datetime`, `strftime("%Y-%m-%d %A")` and `str(list)`: they are parameters, and a timestamp is naive or aware with one comparable instant.
- Digest.SortKey: every missing date gets the same `now`; the code calls `datetime.now()` once per key, so later keys can be slightly larger. This does not change the order among undated reports.
- Summary.Json: numbers are integers; the number value of the reply is not inspected.
- Summary.Element: indexing a JSON string is treated as failing. Python indexes it, but the next key lookup then raises, so the outcome is the same.
- Imap.Connection.Fetch: the \Seen flag that FETCH (RFC822) sets on a mailbox opened read-write by SELECT (section 6.4.5 of RFC 3501) is not modelled; message flags are not part of the state.
- Imap.Connection.Append: a stored draft is recorded in the connection's list of appended messages, not added to the mailbox contents.
- Settings: dotenv loading and `os.getenv` are out; the configuration is a record of optional strings.
- `main.py` (prompts, template reading, `exit`), the `main` function of `auto_weekly_report.py` and `utils/logger.py` are not part of this model; logging calls are comments at the points where the code logs.
- Byte decoding (UTF-8 with `errors='ignore'`, base64, quoted-printable) and RFC 2047 decoding internals are parameters.

## Findings

| source | as written | input that shows it | evidently intended | confidence | as-written member | corrected member |
|---|---|---|---|---|---|---|
| utils/email_sender.py:105-119 | the status returned by `imap.append` is ignored, and `save_to_drafts` returns True whenever nothing raised; imaplib raises only on BAD and returns a NO answer | a logged-in server without the drafts folder answers the APPEND with NO [TRYCREATE]; `save_to_drafts` returns True and no draft exists | True only when the APPEND is answered OK | not executed | Sender.EmailSender.SaveToDraftsAsWritten | Sender.EmailSender.SaveToDrafts |
| auto_weekly_report.py:113-127 | the same unchecked APPEND status in the older copy | the same server without the drafts folder | True only when the APPEND is answered OK | not executed | Sender.MissingFolderReportedAsSaved | Sender.DraftSavedIff |
