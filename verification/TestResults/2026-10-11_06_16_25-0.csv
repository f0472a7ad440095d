TestResult.DisplayName,TestResult.Outcome,TestResult.Duration,TestResult.ResourceCount,RandomSeed
Fetcher.WeeklyReportsSound (correctness),Passed,00:00:00.3055377,529717,1
Sender.DraftHeaderValues (correctness),Passed,00:00:00.2627805,733990,1
Summary.RequestFor (well-formedness),Passed,00:00:00.2092710,145741,1
Sender.DraftHeaderRules (correctness),Passed,00:00:00.2052621,330248,1
Settings.UpperKeys (correctness),Passed,00:00:00.2051102,590414,1
Summary.RequestCarriesDigest (well-formedness),Passed,00:00:00.1969450,268883,1
Settings.MissingImapRequired (correctness),Passed,00:00:00.1943982,397913,1
Fetcher.EmailFetcher.FetchWeeklyReports (correctness),Passed,00:00:00.1875010,282408,1
Summary.RequestCarriesDigest (correctness),Passed,00:00:00.1769592,275199,1
Digest.FormatReports (correctness),Passed,00:00:00.1582520,433634,1
Fetcher.WeeklyReports (well-formedness),Passed,00:00:00.1546574,190007,1
Fetcher.Collect (well-formedness),Passed,00:00:00.1519353,71630,1
Fetcher.EmailFetcher.FetchDrafts (correctness),Passed,00:00:00.1475196,239206,1
Summary.GeneratedIff (correctness),Passed,00:00:00.1471868,423322,1
Fetcher.EmailFetcher.FetchWeeklyReports (well-formedness),Passed,00:00:00.1442925,205732,1
Summary.Member (well-formedness),Passed,00:00:00.1329330,22669,1
Fetcher.WeeklyReportsSound (well-formedness),Passed,00:00:00.1306713,199299,1
Wrappers.Truthy (well-formedness),Passed,00:00:00.1302617,9380,1
Fetcher.WeeklyReportsBound (correctness),Passed,00:00:00.1259609,203764,1
Sender.AddressHeaderValues (correctness),Passed,00:00:00.1249119,369965,1
Sender.DraftPartRules (well-formedness),Passed,00:00:00.1245614,100212,1
Calendar.NoLaterMonday (correctness),Passed,00:00:00.1242012,635713,1
Digest.AllUndatedKeepOrder (correctness),Passed,00:00:00.1239398,359608,1
Digest.Keys (well-formedness),Passed,00:00:00.1215599,60945,1
Fetcher.WeeklyReportsBound (well-formedness),Passed,00:00:00.1208994,198953,1
Calendar.MonthNumberOfAbbrev (correctness),Passed,00:00:00.1195028,361676,1
Fetcher.WeeklyReportsFailedSearch (well-formedness),Passed,00:00:00.1179383,194816,1
Imap.DateTextQuotable (correctness),Passed,00:00:00.1177357,391036,1
Digest.SortIsStablePermutation (correctness),Passed,00:00:00.1166748,305775,1
Settings.GetMissingConfig (correctness),Passed,00:00:00.1156819,265678,1
Summary.HttpErrorNamesStatusAndText (correctness),Passed,00:00:00.1145024,154743,1
Digest.SortIsStablePermutation (well-formedness),Passed,00:00:00.1131836,150014,1
Text.LaterLayout (correctness),Passed,00:00:00.1091571,629437,1
Mime.FirstBodyPayloadIsFirst (correctness),Passed,00:00:00.1067609,337272,1
Digest.SortedReports (well-formedness),Passed,00:00:00.1061246,145353,1
Digest.Insert (well-formedness),Passed,00:00:00.1046484,337770,1
Calendar.ParseDateTextRoundTrip (correctness),Passed,00:00:00.1041394,358566,1
Settings.MissingImap (well-formedness),Passed,00:00:00.1037139,59017,1
Sender.MimeMultipart.AsDraft (well-formedness),Passed,00:00:00.0993259,14379,1
Fetcher.ProcessReply (correctness),Passed,00:00:00.0984755,87023,1
Calendar.DaysBeforeMonthYear (correctness),Passed,00:00:00.0977728,115560,1
Sender.EmailSender.SaveToDraftsAsWritten (correctness),Passed,00:00:00.0973072,156277,1
Fetcher.WeeklyReportsComplete (correctness),Passed,00:00:00.0969767,271454,1
Sender.EmailSender.CreateMessage (correctness),Passed,00:00:00.0966712,182789,1
Fetcher.EmailFetcher.FetchDrafts (well-formedness),Passed,00:00:00.0938979,228957,1
Summary.NoReportsSendsNothing (correctness),Passed,00:00:00.0918670,200141,1
Text.OffsetTail (well-formedness),Passed,00:00:00.0898984,13851,1
Mime.Walk (well-formedness),Passed,00:00:00.0864608,32391,1
Sender.EmailSender.SaveToDraftsAsWritten (well-formedness),Passed,00:00:00.0850614,133346,1
Fetcher.CollectAppend (correctness),Passed,00:00:00.0844071,285048,1
Summary.GeneratedIff (well-formedness),Passed,00:00:00.0818369,240980,1
Mime.MultipartBodySource (correctness),Passed,00:00:00.0814771,153973,1
Mime.WalkAll (well-formedness),Passed,00:00:00.0811240,27337,1
Fetcher.EmailFetcher._ctor (correctness),Passed,00:00:00.0809448,30173,1
Calendar.QuotientStep (well-formedness),Passed,00:00:00.0792654,8450,1
Mime.DecodeHeaderFirstSegmentOnly (correctness),Passed,00:00:00.0775323,42247,1
Mime.DecodeHeaderIgnoresCharset (correctness),Passed,00:00:00.0755978,42727,1
Fetcher.CollectStep (well-formedness),Passed,00:00:00.0751024,105612,1
Fetcher.WeeklyReportsComplete (well-formedness),Passed,00:00:00.0747231,198777,1
Sender.EmailSender.SetAddressHeaders (correctness),Passed,00:00:00.0740426,492823,1
Digest.UnparseableDateFallsBack (correctness),Passed,00:00:00.0737543,117369,1
Fetcher.CollectStep (correctness),Passed,00:00:00.0737417,153097,1
Digest.DigestLayout (correctness),Passed,00:00:00.0732649,127844,1
Summary.HttpErrorNamesStatusAndText (well-formedness),Passed,00:00:00.0731671,79582,1
Imap.ParseSinceRoundTrip (correctness),Passed,00:00:00.0727372,97086,1
Imap.Connection.Search (well-formedness),Passed,00:00:00.0724039,100961,1
Fetcher.WeeklyReportsFailedSearch (correctness),Passed,00:00:00.0719429,195813,1
Fetcher.ContributionIff (correctness),Passed,00:00:00.0713894,76353,1
Fetcher.KeptLast (correctness),Passed,00:00:00.0706624,259014,1
Imap.Connection.Select (correctness),Passed,00:00:00.0704328,84977,1
Fetcher.Contributions (well-formedness),Passed,00:00:00.0698902,94845,1
Digest.UnparseableDateFallsBack (well-formedness),Passed,00:00:00.0683785,108438,1
Sender.EmailSender.SaveToDrafts (correctness),Passed,00:00:00.0681091,157848,1
Digest.FormatEntry (correctness),Passed,00:00:00.0661184,64824,1
Digest.DigestLayout (well-formedness),Passed,00:00:00.0622954,132764,1
Fetcher.CollectIsKept (correctness),Passed,00:00:00.0616584,129144,1
Digest.UndatedBesideAwareFallsBack (well-formedness),Passed,00:00:00.0608255,110237,1
Fetcher.ReportFrom (well-formedness),Passed,00:00:00.0601611,79283,1
Fetcher.CollectExact (correctness),Passed,00:00:00.0587378,121563,1
Sender.MissingFolderReportedAsSaved (correctness),Passed,00:00:00.0585056,154222,1
Fetcher.EmailFetcher.Enter (correctness),Passed,00:00:00.0573318,91020,1
Sender.DraftHeaderNames (correctness),Passed,00:00:00.0561547,136421,1
Mime.ExtractEmailBody (correctness),Passed,00:00:00.0558495,108992,1
Settings.MissingConfigDistinct (correctness),Passed,00:00:00.0558408,247701,1
Summary.ReplyContentOfAnswer (correctness),Passed,00:00:00.0556994,87459,1
Settings.MissingImapStep (correctness),Passed,00:00:00.0555547,177919,1
Sender.DraftHeaderRules (well-formedness),Passed,00:00:00.0543986,121832,1
Digest.AllUndatedKeepOrder (well-formedness),Passed,00:00:00.0542947,126433,1
Sender.EmailSender.SaveToDrafts (well-formedness),Passed,00:00:00.0522929,134922,1
Digest.UndatedBesideAwareFallsBack (correctness),Passed,00:00:00.0492612,139410,1
Digest.Sort (well-formedness),Passed,00:00:00.0490664,104552,1
Calendar.FourDigitYear (correctness),Passed,00:00:00.0483616,181571,1
Calendar.ParseDateText (well-formedness),Passed,00:00:00.0480362,63005,1
Fetcher.EmailFetcher.Enter (well-formedness),Passed,00:00:00.0473042,67157,1
Summary.PayloadMembers (correctness),Passed,00:00:00.0468292,87396,1
Fetcher.CollectExact (well-formedness),Passed,00:00:00.0466936,74395,1
Sender.DraftPartRules (correctness),Passed,00:00:00.0450191,112048,1
Digest.FormattedDigest (well-formedness),Passed,00:00:00.0432866,105818,1
Summary.NewAssistant (well-formedness),Passed,00:00:00.0432467,46014,1
Digest.FallbackWhenSortRaises (correctness),Passed,00:00:00.0432263,108121,1
Imap.Connection.Search (correctness),Passed,00:00:00.0429553,111985,1
Imap.IdsSinceExact (correctness),Passed,00:00:00.0426621,138989,1
Digest.SortedItems (well-formedness),Passed,00:00:00.0425972,81377,1
Calendar.WeekStartOf (correctness),Passed,00:00:00.0416444,268690,1
Fetcher.EmailFetcher.SelectFolder (correctness),Passed,00:00:00.0416313,87837,1
Mime.MultipartBodySource (well-formedness),Passed,00:00:00.0408895,87737,1
Fetcher.ContributionIff (well-formedness),Passed,00:00:00.0407525,71872,1
Digest.SortSucceeds (well-formedness),Passed,00:00:00.0401900,45294,1
Fetcher.CollectBound (correctness),Passed,00:00:00.0400451,78270,1
Settings.UncheckedItemsIrrelevant (correctness),Passed,00:00:00.0393708,127739,1
Sender.EmailSender.AppendToDrafts (correctness),Passed,00:00:00.0393174,108367,1
Digest.Sections (well-formedness),Passed,00:00:00.0390802,140868,1
Fetcher.Kept (well-formedness),Passed,00:00:00.0389469,16719,1
Summary.ValidConfigBuildsAssistant (correctness),Passed,00:00:00.0385687,46640,1
Sender.HeaderValuesAppend (correctness),Passed,00:00:00.0385516,131865,1
Sender.EmailSender.AppendToDrafts (well-formedness),Passed,00:00:00.0383324,74023,1
Fetcher.Replies (well-formedness),Passed,00:00:00.0380547,67768,1
Summary.HeadersMembers (correctness),Passed,00:00:00.0371019,72048,1
Sender.EmailSender.SetAddressHeaders (well-formedness),Passed,00:00:00.0369617,29507,1
Imap.Connection.Append (correctness),Passed,00:00:00.0367907,97797,1
Fetcher.SkippedReply (correctness),Passed,00:00:00.0365855,79112,1
Sender.EmailSender.CreateMessage (well-formedness),Passed,00:00:00.0363008,89172,1
Digest.SectionShape (correctness),Passed,00:00:00.0359260,203991,1
Text.JoinLayout (correctness),Passed,00:00:00.0357655,54122,1
Fetcher.EmailFetcher.SelectFolder (well-formedness),Passed,00:00:00.0355848,74158,1
Sender.SavedAsWrittenIff (correctness),Passed,00:00:00.0355484,62994,1
Text.ParseDecimalOfDecimal (correctness),Passed,00:00:00.0334225,69499,1
Sender.EmailSender.AttachImage (correctness),Passed,00:00:00.0333054,67279,1
Imap.Connection.Append (well-formedness),Passed,00:00:00.0330381,76251,1
Imap.NonAsciiFolderRaises (correctness),Passed,00:00:00.0327731,61565,1
Digest.IndexLowerBound (well-formedness),Passed,00:00:00.0327695,13042,1
Settings.ValidIffNothingMissing (correctness),Passed,00:00:00.0305863,57673,1
Sender.MimeMultipart.SetHeader (well-formedness),Passed,00:00:00.0305237,17845,1
Imap.FolderReplies (correctness),Passed,00:00:00.0300761,78967,1
Settings.MissingImapRequired (well-formedness),Passed,00:00:00.0300311,53295,1
Calendar.DateTextLength (correctness),Passed,00:00:00.0298492,109627,1
Text.Upper (well-formedness),Passed,00:00:00.0294250,39552,1
Summary.ChatMessageMembers (correctness),Passed,00:00:00.0292708,47924,1
Digest.KeysParse (well-formedness),Passed,00:00:00.0284839,31636,1
Imap.Connection.Fetch (correctness),Passed,00:00:00.0283590,68302,1
Settings.MissingImapStep (well-formedness),Passed,00:00:00.0282936,70720,1
Imap.ParseSinceRoundTrip (well-formedness),Passed,00:00:00.0278998,71970,1
Calendar.DaysBeforeMonthNonNegative (correctness),Passed,00:00:00.0272699,83562,1
Text.OffsetTail (correctness),Passed,00:00:00.0268157,30182,1
Sender.DraftSavedIff (correctness),Passed,00:00:00.0267190,66215,1
Imap.Connection.Login (correctness),Passed,00:00:00.0262001,61481,1
Calendar.ParseDateTextRoundTrip (well-formedness),Passed,00:00:00.0259961,62334,1
Calendar.ThisMonday (well-formedness),Passed,00:00:00.0258238,113608,1
Mime.EmailBody (well-formedness),Passed,00:00:00.0257737,50559,1
Sender.MimeMultipart._ctor (correctness),Passed,00:00:00.0257675,35824,1
Sender.EmailSender.AttachImage (well-formedness),Passed,00:00:00.0256166,53219,1
Digest.Decorate (well-formedness),Passed,00:00:00.0255336,61203,1
Text.ContainsIffOccurs (correctness),Passed,00:00:00.0252240,47461,1
Sender.DraftHeaderValues (well-formedness),Passed,00:00:00.0250848,49965,1
Settings.MissingConfigDistinct (well-formedness),Passed,00:00:00.0250587,31510,1
Imap.Connection.Select (well-formedness),Passed,00:00:00.0244768,66311,1
Sender.MimeMultipart.SetHeader (correctness),Passed,00:00:00.0242646,20849,1
Mime.FirstBodyPayloadIsFirst (well-formedness),Passed,00:00:00.0237744,57022,1
Imap.Connection.Fetch (well-formedness),Passed,00:00:00.0237575,51957,1
Calendar.PreviousYearEnd (correctness),Passed,00:00:00.0234798,57694,1
Imap.IdsSince (well-formedness),Passed,00:00:00.0229237,31941,1
Imap.ParseSince (well-formedness),Passed,00:00:00.0224341,46824,1
Fetcher.NewEmailFetcher (correctness),Passed,00:00:00.0223044,29419,1
Mime.FirstBodyPayload (well-formedness),Passed,00:00:00.0222767,40602,1
Sender.DraftHeaderNames (well-formedness),Passed,00:00:00.0218538,43754,1
Digest.TailIndexFree (correctness),Passed,00:00:00.0218527,44174,1
Calendar.Yesterday (well-formedness),Passed,00:00:00.0216183,73005,1
Calendar.ThisMondayIsWeekStart (correctness),Passed,00:00:00.0215240,42558,1
Summary.HeadersMembers (well-formedness),Passed,00:00:00.0214262,51625,1
Digest.SectionShape (well-formedness),Passed,00:00:00.0208349,52174,1
Fetcher.KeptExact (correctness),Passed,00:00:00.0207953,41716,1
Summary.ReplyContent (well-formedness),Passed,00:00:00.0206336,38404,1
Calendar.TwoDigitsRoundTrip (correctness),Passed,00:00:00.0205231,53171,1
Calendar.ThisMondayIsWeekStart (well-formedness),Passed,00:00:00.0203090,51491,1
Text.Decimal (well-formedness),Passed,00:00:00.0202961,50773,1
Mime.IsBodyPart (well-formedness),Passed,00:00:00.0201727,35659,1
Imap.Connection.Login (well-formedness),Passed,00:00:00.0200014,52819,1
Imap.IdsSinceExact (well-formedness),Passed,00:00:00.0199954,29261,1
Calendar.DateText (well-formedness),Passed,00:00:00.0199313,69131,1
Fetcher.KeptExact (well-formedness),Passed,00:00:00.0197950,18629,1
Imap.FetchReply (well-formedness),Passed,00:00:00.0197619,35183,1
Text.JoinLaidOut (well-formedness),Passed,00:00:00.0192379,17974,1
Fetcher.KeptLast (well-formedness),Passed,00:00:00.0187978,27666,1
Settings.UpperName (correctness),Passed,00:00:00.0187534,33784,1
Text.Contains (well-formedness),Passed,00:00:00.0185306,12319,1
Sender.AddressHeaderValues (well-formedness),Passed,00:00:00.0184950,35309,1
Sender.NewEmailSender (correctness),Passed,00:00:00.0184321,32443,1
Fetcher.EmailFetcher._ctor (well-formedness),Passed,00:00:00.0184168,24622,1
Calendar.WeekStartOf (well-formedness),Passed,00:00:00.0181245,40227,1
Calendar.PreviousMonthEnd (correctness),Passed,00:00:00.0178031,72803,1
Digest.HeadBeforeRest (correctness),Passed,00:00:00.0177488,38582,1
Text.OccursAt (well-formedness),Passed,00:00:00.0176815,10614,1
Text.SliceShift (well-formedness),Passed,00:00:00.0176523,13329,1
Fetcher.NewEmailFetcher (well-formedness),Passed,00:00:00.0176002,24935,1
Sender.ImageParts (well-formedness),Passed,00:00:00.0175390,32083,1
Sender.MimeMultipart.Attach (correctness),Passed,00:00:00.0174271,27267,1
Imap.UnquoteQuote (correctness),Passed,00:00:00.0173856,26488,1
Mime.DecodeHeader (well-formedness),Passed,00:00:00.0173344,31595,1
Imap.Connection._ctor (correctness),Passed,00:00:00.0170450,35610,1
Imap.SinceCriterion (well-formedness),Passed,00:00:00.0170168,45415,1
Text.OccursShift (correctness),Passed,00:00:00.0167863,19158,1
Imap.AsciiQuote (correctness),Passed,00:00:00.0167159,26125,1
Text.JoinLaidOut (correctness),Passed,00:00:00.0164379,24359,1
Text.JoinLayout (well-formedness),Passed,00:00:00.0163060,24161,1
Digest.SortKey (well-formedness),Passed,00:00:00.0162703,29247,1
Text.LaidOut (well-formedness),Passed,00:00:00.0162147,23103,1
Digest.Label (well-formedness),Passed,00:00:00.0161888,31505,1
Calendar.PreviousYearEnd (well-formedness),Passed,00:00:00.0160722,22882,1
Text.HeadLayout (correctness),Passed,00:00:00.0159928,31491,1
Text.ParseDecimalOfDecimal (well-formedness),Passed,00:00:00.0156989,21298,1
Calendar.MonthNumberOfAbbrev (well-formedness),Passed,00:00:00.0156650,31872,1
Settings.UpperName (well-formedness),Passed,00:00:00.0153763,25959,1
Calendar.DaysBefore (well-formedness),Passed,00:00:00.0153658,43781,1
Imap.DateTextQuotable (well-formedness),Passed,00:00:00.0153408,45616,1
Digest.IndexFree (well-formedness),Passed,00:00:00.0152385,11205,1
Sender.EmailSender._ctor (correctness),Passed,00:00:00.0150593,31696,1
Text.ShiftLayout (correctness),Passed,00:00:00.0149523,38583,1
Fetcher.ValidConfigBuildsFetcher (correctness),Passed,00:00:00.0149378,24779,1
Text.ParseDecimal (well-formedness),Passed,00:00:00.0148903,21604,1
Sender.NewEmailSender (well-formedness),Passed,00:00:00.0148809,26739,1
Sender.HeaderValuesSingle (correctness),Passed,00:00:00.0144665,26949,1
Mime.DecodeHeaderFirstSegmentOnly (well-formedness),Passed,00:00:00.0143471,34820,1
Text.LaterLayout (well-formedness),Passed,00:00:00.0141796,24414,1
Calendar.Valid (well-formedness),Passed,00:00:00.0140302,16286,1
Calendar.DaysBeforeNextYear (correctness),Passed,00:00:00.0139746,54388,1
Text.ContainsMiddle (correctness),Passed,00:00:00.0139468,24201,1
Digest.Framed (well-formedness),Passed,00:00:00.0138507,11687,1
Calendar.Ordinal (well-formedness),Passed,00:00:00.0136098,20668,1
Calendar.DateTextLength (well-formedness),Passed,00:00:00.0134050,43558,1
Summary.OptStr (well-formedness),Passed,00:00:00.0132457,10442,1
Digest.IndexLowerBound (correctness),Passed,00:00:00.0129754,17585,1
Sender.HeaderValues (well-formedness),Passed,00:00:00.0128685,20912,1
Digest.StrictlySorted (well-formedness),Passed,00:00:00.0128478,15950,1
Calendar.QuotientStep (correctness),Passed,00:00:00.0128007,43085,1
Sender.ValidConfigBuildsSender (correctness),Passed,00:00:00.0127579,24778,1
Calendar.NoLaterMonday (well-formedness),Passed,00:00:00.0124735,30749,1
Text.SliceShift (correctness),Passed,00:00:00.0124308,16502,1
Sender.AddressHeaders (well-formedness),Passed,00:00:00.0123884,20302,1
Calendar.PreviousMonthEnd (well-formedness),Passed,00:00:00.0123662,26934,1
Sender.MimeMultipart.Attach (well-formedness),Passed,00:00:00.0119449,23417,1
Digest.TailIndexFree (well-formedness),Passed,00:00:00.0119252,20931,1
Digest.IdentityPermutation (correctness),Passed,00:00:00.0119064,21979,1
Imap.Unquote (well-formedness),Passed,00:00:00.0116704,24113,1
Text.Offset (well-formedness),Passed,00:00:00.0113408,12215,1
Text.HeadLayout (well-formedness),Passed,00:00:00.0112646,12735,1
Calendar.Weekday (well-formedness),Passed,00:00:00.0112211,21116,1
Calendar.TwoDigits (well-formedness),Passed,00:00:00.0111203,24499,1
Text.ShiftLayout (well-formedness),Passed,00:00:00.0111072,16505,1
Calendar.IsLeap (well-formedness),Passed,00:00:00.0110919,6084,1
Calendar.TwoDigitsRoundTrip (well-formedness),Passed,00:00:00.0110787,18307,1
Summary.Element (well-formedness),Passed,00:00:00.0110462,22570,1
Digest.Framed (correctness),Passed,00:00:00.0109892,23726,1
Calendar.DaysBeforeMonth (well-formedness),Passed,00:00:00.0109347,11974,1
Text.Join (well-formedness),Passed,00:00:00.0107946,13244,1
Digest.OneKind (well-formedness),Passed,00:00:00.0104624,11533,1
Digest.HeadBeforeRest (well-formedness),Passed,00:00:00.0104165,23318,1
Imap.SelectedMailbox (well-formedness),Passed,00:00:00.0103404,20264,1
Imap.Ascii (well-formedness),Passed,00:00:00.0102229,8626,1
Calendar.OrdinalPositive (correctness),Passed,00:00:00.0100722,23720,1
Digest.IdentityPermutation (well-formedness),Passed,00:00:00.0095941,15213,1
Calendar.DaysBeforeNextYear (well-formedness),Passed,00:00:00.0095332,7316,1
Text.OccursShift (well-formedness),Passed,00:00:00.0094040,11597,1
Digest.IndexUpperBound (correctness),Passed,00:00:00.0091634,21166,1
Digest.DistinctIndices (well-formedness),Passed,00:00:00.0091399,12819,1
Calendar.DaysInMonth (well-formedness),Passed,00:00:00.0090742,18387,1
Text.IsDigits (well-formedness),Passed,00:00:00.0086501,9821,1
Digest.IndexUpperBound (well-formedness),Passed,00:00:00.0086356,15213,1
Mime.Byte (well-formedness),Passed,00:00:00.0084564,3672,1
Calendar.OrdinalPositive (well-formedness),Passed,00:00:00.0082080,20236,1
Imap.Quotable (well-formedness),Passed,00:00:00.0080354,9375,1
Calendar.DaysBeforeYearNonNegative (correctness),Passed,00:00:00.0079117,11938,1
Calendar.DaysBeforeYear (well-formedness),Passed,00:00:00.0078675,5941,1
Calendar.MultipleOf100 (well-formedness),Passed,00:00:00.0078579,3942,1
Text.UpperChar (well-formedness),Passed,00:00:00.0078553,6534,1
Calendar.Divisors (correctness),Passed,00:00:00.0076731,9829,1
Calendar.WeekArithmetic (correctness),Passed,00:00:00.0076497,37307,1
Text.DigitChar (well-formedness),Passed,00:00:00.0074707,8912,1
Calendar.DaysBeforeMonthYear (well-formedness),Passed,00:00:00.0065964,10450,1
Calendar.DaysBeforeMonthNonNegative (well-formedness),Passed,00:00:00.0062549,10142,1
Calendar.Divisors (well-formedness),Passed,00:00:00.0058623,5383,1
Calendar.DaysBeforeYearNonNegative (well-formedness),Passed,00:00:00.0053190,5034,1
Calendar.MultipleOf400 (correctness),Passed,00:00:00.0053072,5348,1
Calendar.WeekArithmetic (well-formedness),Passed,00:00:00.0051861,4953,1
Calendar.MultipleOf100 (correctness),Passed,00:00:00.0049085,5348,1
Calendar.MultipleOf400 (well-formedness),Passed,00:00:00.0047126,3942,1
