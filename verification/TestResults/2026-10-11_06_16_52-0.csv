TestResult.DisplayName,TestResult.Outcome,TestResult.Duration,TestResult.ResourceCount,RandomSeed
Sender.DraftHeaderRules (correctness),Passed,00:00:00.4134394,1532614,3
Settings.UpperKeys (correctness),Passed,00:00:00.2422030,657047,3
Fetcher.WeeklyReportsComplete (correctness),Passed,00:00:00.2029671,522697,3
Summary.RequestCarriesDigest (correctness),Passed,00:00:00.1932175,275838,3
Fetcher.WeeklyReportsSound (correctness),Passed,00:00:00.1881158,445521,3
Fetcher.EmailFetcher.FetchDrafts (well-formedness),Passed,00:00:00.1803962,228703,3
Summary.RequestCarriesDigest (well-formedness),Passed,00:00:00.1747570,268259,3
Fetcher.EmailFetcher.FetchWeeklyReports (well-formedness),Passed,00:00:00.1620726,205691,3
Fetcher.WeeklyReports (well-formedness),Passed,00:00:00.1615223,189835,3
Settings.MissingImapRequired (correctness),Passed,00:00:00.1583789,402517,3
Fetcher.Collect (well-formedness),Passed,00:00:00.1519526,71781,3
Fetcher.WeeklyReportsBound (correctness),Passed,00:00:00.1499567,203609,3
Fetcher.EmailFetcher.FetchDrafts (correctness),Passed,00:00:00.1489184,238947,3
Summary.RequestFor (well-formedness),Passed,00:00:00.1477710,145782,3
Digest.FormatReports (correctness),Passed,00:00:00.1452890,299351,3
Fetcher.EmailFetcher.FetchWeeklyReports (correctness),Passed,00:00:00.1448487,282849,3
Summary.GeneratedIff (correctness),Passed,00:00:00.1428923,421500,3
Text.LaterLayout (correctness),Passed,00:00:00.1349962,976940,3
Imap.DateTextQuotable (correctness),Passed,00:00:00.1277944,360977,3
Sender.AddressHeaderValues (correctness),Passed,00:00:00.1267126,465726,3
Digest.SortIsStablePermutation (correctness),Passed,00:00:00.1255021,302665,3
Fetcher.WeeklyReportsBound (well-formedness),Passed,00:00:00.1234929,198750,3
Sender.DraftHeaderValues (correctness),Passed,00:00:00.1179776,451652,3
Mime.FirstBodyPayloadIsFirst (correctness),Passed,00:00:00.1175842,254566,3
Fetcher.WeeklyReportsSound (well-formedness),Passed,00:00:00.1131246,199277,3
Summary.Member (well-formedness),Passed,00:00:00.1034261,22668,3
Fetcher.WeeklyReportsFailedSearch (well-formedness),Passed,00:00:00.1031024,194613,3
Fetcher.CollectAppend (correctness),Passed,00:00:00.1025547,289987,3
Sender.DraftPartRules (well-formedness),Passed,00:00:00.1025330,98120,3
Settings.MissingImap (well-formedness),Passed,00:00:00.1022512,59086,3
Digest.SortIsStablePermutation (well-formedness),Passed,00:00:00.1020364,157098,3
Sender.MimeMultipart.Attach (correctness),Passed,00:00:00.1014412,27537,3
Sender.MimeMultipart.Attach (well-formedness),Passed,00:00:00.1004706,23415,3
Digest.UnparseableDateFallsBack (correctness),Passed,00:00:00.0996605,116813,3
Calendar.MonthNumberOfAbbrev (correctness),Passed,00:00:00.0991547,266359,3
Text.Offset (well-formedness),Passed,00:00:00.0962792,12216,3
Mime.WalkAll (well-formedness),Passed,00:00:00.0961828,27331,3
Digest.AllUndatedKeepOrder (correctness),Passed,00:00:00.0938624,275302,3
Fetcher.WeeklyReportsComplete (well-formedness),Passed,00:00:00.0930042,198758,3
Mime.MultipartBodySource (correctness),Passed,00:00:00.0925056,152585,3
Digest.OneKind (well-formedness),Passed,00:00:00.0923999,11553,3
Sender.HeaderValuesAppend (correctness),Passed,00:00:00.0898868,488463,3
Mime.DecodeHeaderFirstSegmentOnly (correctness),Passed,00:00:00.0891608,42149,3
Sender.EmailSender.SaveToDraftsAsWritten (correctness),Passed,00:00:00.0885272,158081,3
Fetcher.EmailFetcher._ctor (correctness),Passed,00:00:00.0876568,30175,3
Sender.EmailSender.SaveToDraftsAsWritten (well-formedness),Passed,00:00:00.0866153,133350,3
Digest.Insert (well-formedness),Passed,00:00:00.0855763,341754,3
Summary.GeneratedIff (well-formedness),Passed,00:00:00.0850809,240891,3
Mime.ExtractEmailBody (correctness),Passed,00:00:00.0846658,200792,3
Settings.MissingImapStep (correctness),Passed,00:00:00.0840295,183680,3
Imap.Connection.Search (well-formedness),Passed,00:00:00.0825595,100948,3
Settings.GetMissingConfig (correctness),Passed,00:00:00.0821345,240749,3
Fetcher.CollectExact (correctness),Passed,00:00:00.0807243,167182,3
Fetcher.CollectStep (correctness),Passed,00:00:00.0801832,153219,3
Summary.HttpErrorNamesStatusAndText (correctness),Passed,00:00:00.0786254,157159,3
Mime.DecodeHeaderIgnoresCharset (correctness),Passed,00:00:00.0762973,39889,3
Digest.DigestLayout (correctness),Passed,00:00:00.0760415,127889,3
Summary.NoReportsSendsNothing (correctness),Passed,00:00:00.0757095,200039,3
Calendar.DaysBeforeMonthYear (correctness),Passed,00:00:00.0745766,131295,3
Fetcher.Contributions (well-formedness),Passed,00:00:00.0736413,94786,3
Digest.FormatEntry (correctness),Passed,00:00:00.0721758,64723,3
Fetcher.WeeklyReportsFailedSearch (correctness),Passed,00:00:00.0716773,195601,3
Calendar.ParseDateTextRoundTrip (correctness),Passed,00:00:00.0708037,266960,3
Wrappers.Truthy (well-formedness),Passed,00:00:00.0703047,9376,3
Imap.ParseSinceRoundTrip (correctness),Passed,00:00:00.0694255,96781,3
Digest.SortedReports (well-formedness),Passed,00:00:00.0676361,147056,3
Digest.UnparseableDateFallsBack (well-formedness),Passed,00:00:00.0674171,108469,3
Fetcher.ContributionIff (correctness),Passed,00:00:00.0632004,76352,3
Imap.Connection.Select (correctness),Passed,00:00:00.0624716,85062,3
Calendar.WeekStartOf (correctness),Passed,00:00:00.0623112,432159,3
Sender.EmailSender.SetAddressHeaders (correctness),Passed,00:00:00.0618402,394076,3
Digest.Sections (well-formedness),Passed,00:00:00.0605097,134326,3
Sender.EmailSender.CreateMessage (correctness),Passed,00:00:00.0602517,195482,3
Digest.DigestLayout (well-formedness),Passed,00:00:00.0599305,132679,3
Fetcher.CollectStep (well-formedness),Passed,00:00:00.0595242,105635,3
Digest.UndatedBesideAwareFallsBack (well-formedness),Passed,00:00:00.0592645,110250,3
Digest.AllUndatedKeepOrder (well-formedness),Passed,00:00:00.0590675,130598,3
Digest.UndatedBesideAwareFallsBack (correctness),Passed,00:00:00.0572827,139818,3
Fetcher.ProcessReply (correctness),Passed,00:00:00.0570417,86563,3
Summary.HttpErrorNamesStatusAndText (well-formedness),Passed,00:00:00.0560074,79622,3
Sender.EmailSender.SaveToDrafts (well-formedness),Passed,00:00:00.0543996,134921,3
Fetcher.CollectIsKept (correctness),Passed,00:00:00.0536565,127483,3
Mime.MultipartBodySource (well-formedness),Passed,00:00:00.0525745,87537,3
Sender.DraftHeaderNames (correctness),Passed,00:00:00.0522529,160937,3
Sender.EmailSender.SaveToDrafts (correctness),Passed,00:00:00.0521682,159323,3
Fetcher.Replies (well-formedness),Passed,00:00:00.0519222,67751,3
Digest.FallbackWhenSortRaises (correctness),Passed,00:00:00.0513155,108134,3
Calendar.ParseDateText (well-formedness),Passed,00:00:00.0504004,62187,3
Fetcher.KeptLast (correctness),Passed,00:00:00.0491971,264987,3
Sender.EmailSender.AppendToDrafts (correctness),Passed,00:00:00.0469079,112916,3
Calendar.DateText (well-formedness),Passed,00:00:00.0468984,70863,3
Calendar.DateTextLength (correctness),Passed,00:00:00.0462261,110850,3
Fetcher.EmailFetcher.Enter (correctness),Passed,00:00:00.0445398,91004,3
Settings.MissingConfigDistinct (correctness),Passed,00:00:00.0436184,232291,3
Digest.SectionShape (correctness),Passed,00:00:00.0436050,204239,3
Settings.UncheckedItemsIrrelevant (correctness),Passed,00:00:00.0434072,137344,3
Fetcher.ContributionIff (well-formedness),Passed,00:00:00.0429102,71806,3
Sender.MissingFolderReportedAsSaved (correctness),Passed,00:00:00.0427131,149805,3
Imap.Connection.Search (correctness),Passed,00:00:00.0423245,114549,3
Digest.FormattedDigest (well-formedness),Passed,00:00:00.0410676,105933,3
Digest.Sort (well-formedness),Passed,00:00:00.0408188,104170,3
Digest.IndexLowerBound (well-formedness),Passed,00:00:00.0395409,13044,3
Fetcher.EmailFetcher.Enter (well-formedness),Passed,00:00:00.0382808,67155,3
Digest.SortSucceeds (well-formedness),Passed,00:00:00.0379565,45279,3
Fetcher.ReportFrom (well-formedness),Passed,00:00:00.0378053,78824,3
Digest.KeysParse (well-formedness),Passed,00:00:00.0374022,31638,3
Sender.DraftHeaderRules (well-formedness),Passed,00:00:00.0368178,126297,3
Fetcher.CollectExact (well-formedness),Passed,00:00:00.0368014,74387,3
Settings.ValidIffNothingMissing (correctness),Passed,00:00:00.0364332,58463,3
Summary.NewAssistant (well-formedness),Passed,00:00:00.0360445,46184,3
Imap.IdsSinceExact (correctness),Passed,00:00:00.0354692,141407,3
Summary.PayloadMembers (correctness),Passed,00:00:00.0353845,85955,3
Digest.SortedItems (well-formedness),Passed,00:00:00.0348762,81309,3
Imap.Connection.Fetch (correctness),Passed,00:00:00.0347890,68580,3
Sender.DraftPartRules (correctness),Passed,00:00:00.0345088,115109,3
Fetcher.CollectBound (correctness),Passed,00:00:00.0342407,78313,3
Digest.SectionShape (well-formedness),Passed,00:00:00.0341317,52175,3
Fetcher.EmailFetcher.SelectFolder (correctness),Passed,00:00:00.0340536,86776,3
Imap.Connection.Login (correctness),Passed,00:00:00.0340141,61593,3
Fetcher.Kept (well-formedness),Passed,00:00:00.0337157,16716,3
Imap.Connection.Append (correctness),Passed,00:00:00.0336239,98730,3
Fetcher.SkippedReply (correctness),Passed,00:00:00.0334369,79080,3
Imap.Connection.Append (well-formedness),Passed,00:00:00.0324558,76270,3
Sender.MimeMultipart._ctor (correctness),Passed,00:00:00.0322248,36008,3
Imap.FolderReplies (correctness),Passed,00:00:00.0316012,78991,3
Calendar.Yesterday (well-formedness),Passed,00:00:00.0315881,78653,3
Settings.MissingImapStep (well-formedness),Passed,00:00:00.0315734,69496,3
Sender.EmailSender.AppendToDrafts (well-formedness),Passed,00:00:00.0303937,74033,3
Fetcher.EmailFetcher.SelectFolder (well-formedness),Passed,00:00:00.0302381,74157,3
Summary.ReplyContentOfAnswer (correctness),Passed,00:00:00.0297157,77561,3
Calendar.FourDigitYear (correctness),Passed,00:00:00.0290145,157452,3
Calendar.ThisMonday (well-formedness),Passed,00:00:00.0284205,112782,3
Text.ParseDecimalOfDecimal (correctness),Passed,00:00:00.0284129,69254,3
Imap.ParseSinceRoundTrip (well-formedness),Passed,00:00:00.0279393,71782,3
Digest.SortKey (well-formedness),Passed,00:00:00.0277463,29271,3
Sender.EmailSender.AttachImage (correctness),Passed,00:00:00.0273248,67176,3
Sender.EmailSender.CreateMessage (well-formedness),Passed,00:00:00.0272814,89159,3
Summary.ChatMessageMembers (correctness),Passed,00:00:00.0268898,48622,3
Settings.MissingImapRequired (well-formedness),Passed,00:00:00.0244127,53221,3
Summary.HeadersMembers (correctness),Passed,00:00:00.0240946,72099,3
Calendar.WeekStartOf (well-formedness),Passed,00:00:00.0240866,40099,3
Digest.Keys (well-formedness),Passed,00:00:00.0240744,61851,3
Text.ContainsIffOccurs (correctness),Passed,00:00:00.0239072,47220,3
Summary.ValidConfigBuildsAssistant (correctness),Passed,00:00:00.0238815,46638,3
Mime.FirstBodyPayloadIsFirst (well-formedness),Passed,00:00:00.0238259,56897,3
Digest.Decorate (well-formedness),Passed,00:00:00.0237775,61220,3
Calendar.PreviousMonthEnd (correctness),Passed,00:00:00.0233782,72795,3
Calendar.ThisMondayIsWeekStart (well-formedness),Passed,00:00:00.0231892,51364,3
Text.OccursShift (correctness),Passed,00:00:00.0231799,39590,3
Text.Decimal (well-formedness),Passed,00:00:00.0229401,57481,3
Mime.DecodeHeaderFirstSegmentOnly (well-formedness),Passed,00:00:00.0226413,34819,3
Sender.DraftSavedIff (correctness),Passed,00:00:00.0225103,66936,3
Settings.UpperName (correctness),Passed,00:00:00.0223388,33810,3
Imap.IdsSinceExact (well-formedness),Passed,00:00:00.0222486,29681,3
Mime.EmailBody (well-formedness),Passed,00:00:00.0219576,50557,3
Imap.ParseSince (well-formedness),Passed,00:00:00.0218027,46791,3
Imap.NonAsciiFolderRaises (correctness),Passed,00:00:00.0217532,61558,3
Text.OffsetTail (correctness),Passed,00:00:00.0217322,29650,3
Fetcher.KeptExact (well-formedness),Passed,00:00:00.0214896,18629,3
Mime.FirstBodyPayload (well-formedness),Passed,00:00:00.0214517,40598,3
Sender.EmailSender.AttachImage (well-formedness),Passed,00:00:00.0214049,53217,3
Summary.ReplyContent (well-formedness),Passed,00:00:00.0213820,38404,3
Digest.TailIndexFree (correctness),Passed,00:00:00.0211147,43739,3
Imap.Connection.Fetch (well-formedness),Passed,00:00:00.0210869,51948,3
Imap.Connection.Select (well-formedness),Passed,00:00:00.0210172,66313,3
Sender.SavedAsWrittenIff (correctness),Passed,00:00:00.0210158,62985,3
Calendar.PreviousYearEnd (correctness),Passed,00:00:00.0208775,56471,3
Text.LaterLayout (well-formedness),Passed,00:00:00.0207845,24439,3
Calendar.DaysBefore (well-formedness),Passed,00:00:00.0207764,43741,3
Fetcher.KeptLast (well-formedness),Passed,00:00:00.0207443,27665,3
Text.JoinLayout (correctness),Passed,00:00:00.0206885,58713,3
Imap.IdsSince (well-formedness),Passed,00:00:00.0206413,31915,3
Imap.Connection.Login (well-formedness),Passed,00:00:00.0202346,52791,3
Text.Upper (well-formedness),Passed,00:00:00.0200192,38640,3
Digest.StrictlySorted (well-formedness),Passed,00:00:00.0199844,15949,3
Calendar.DaysBeforeMonthNonNegative (correctness),Passed,00:00:00.0197850,83650,3
Calendar.DateTextLength (well-formedness),Passed,00:00:00.0197845,43575,3
Imap.DateTextQuotable (well-formedness),Passed,00:00:00.0197275,45620,3
Imap.SinceCriterion (well-formedness),Passed,00:00:00.0195198,45425,3
Sender.EmailSender.SetAddressHeaders (well-formedness),Passed,00:00:00.0195119,29521,3
Sender.HeaderValuesSingle (correctness),Passed,00:00:00.0193978,27514,3
Calendar.ParseDateTextRoundTrip (well-formedness),Passed,00:00:00.0193798,62191,3
Text.Contains (well-formedness),Passed,00:00:00.0193658,12306,3
Calendar.ThisMondayIsWeekStart (correctness),Passed,00:00:00.0192308,42459,3
Text.JoinLayout (well-formedness),Passed,00:00:00.0188181,24192,3
Text.ShiftLayout (correctness),Passed,00:00:00.0187429,39515,3
Mime.IsBodyPart (well-formedness),Passed,00:00:00.0187410,35660,3
Imap.Connection._ctor (correctness),Passed,00:00:00.0180222,35607,3
Calendar.NoLaterMonday (correctness),Passed,00:00:00.0179969,126697,3
Mime.DecodeHeader (well-formedness),Passed,00:00:00.0179468,31590,3
Sender.MimeMultipart.SetHeader (correctness),Passed,00:00:00.0174710,20851,3
Imap.Ascii (well-formedness),Passed,00:00:00.0173260,8641,3
Text.OccursAt (well-formedness),Passed,00:00:00.0172840,10630,3
Sender.HeaderValues (well-formedness),Passed,00:00:00.0172168,21006,3
Imap.AsciiQuote (correctness),Passed,00:00:00.0171202,26050,3
Mime.Byte (well-formedness),Passed,00:00:00.0168770,3672,3
Digest.Label (well-formedness),Passed,00:00:00.0168224,31505,3
Sender.NewEmailSender (correctness),Passed,00:00:00.0168076,32451,3
Digest.TailIndexFree (well-formedness),Passed,00:00:00.0167976,20929,3
Sender.DraftHeaderValues (well-formedness),Passed,00:00:00.0167808,49220,3
Digest.HeadBeforeRest (correctness),Passed,00:00:00.0163836,39545,3
Fetcher.KeptExact (correctness),Passed,00:00:00.0163802,38059,3
Calendar.TwoDigitsRoundTrip (correctness),Passed,00:00:00.0161978,49511,3
Digest.HeadBeforeRest (well-formedness),Passed,00:00:00.0161584,23317,3
Text.ContainsMiddle (correctness),Passed,00:00:00.0161521,24320,3
Calendar.NoLaterMonday (well-formedness),Passed,00:00:00.0161459,30751,3
Summary.HeadersMembers (well-formedness),Passed,00:00:00.0160846,51643,3
Text.ParseDecimalOfDecimal (well-formedness),Passed,00:00:00.0160786,21311,3
Sender.AddressHeaderValues (well-formedness),Passed,00:00:00.0160050,35140,3
Mime.Walk (well-formedness),Passed,00:00:00.0157935,32384,3
Sender.MimeMultipart.SetHeader (well-formedness),Passed,00:00:00.0157388,17845,3
Fetcher.EmailFetcher._ctor (well-formedness),Passed,00:00:00.0156917,24627,3
Text.JoinLaidOut (well-formedness),Passed,00:00:00.0154991,17972,3
Text.LaidOut (well-formedness),Passed,00:00:00.0150702,23104,3
Imap.FetchReply (well-formedness),Passed,00:00:00.0149815,35182,3
Digest.DistinctIndices (well-formedness),Passed,00:00:00.0148900,12820,3
Calendar.OrdinalPositive (well-formedness),Passed,00:00:00.0148323,20205,3
Fetcher.NewEmailFetcher (well-formedness),Passed,00:00:00.0146791,24935,3
Text.JoinLaidOut (correctness),Passed,00:00:00.0145210,24358,3
Settings.MissingConfigDistinct (well-formedness),Passed,00:00:00.0143443,31518,3
Sender.DraftHeaderNames (well-formedness),Passed,00:00:00.0142766,43546,3
Calendar.DaysInMonth (well-formedness),Passed,00:00:00.0142638,18388,3
Imap.UnquoteQuote (correctness),Passed,00:00:00.0140098,26191,3
Imap.Unquote (well-formedness),Passed,00:00:00.0137694,24100,3
Text.IsDigits (well-formedness),Passed,00:00:00.0137265,9823,3
Fetcher.NewEmailFetcher (correctness),Passed,00:00:00.0135945,29417,3
Summary.Element (well-formedness),Passed,00:00:00.0133786,22571,3
Text.HeadLayout (correctness),Passed,00:00:00.0133701,31516,3
Calendar.MonthNumberOfAbbrev (well-formedness),Passed,00:00:00.0131398,31849,3
Calendar.DaysBeforeNextYear (correctness),Passed,00:00:00.0131376,59974,3
Calendar.DaysBeforeMonth (well-formedness),Passed,00:00:00.0129705,11974,3
Digest.IndexUpperBound (well-formedness),Passed,00:00:00.0126839,15209,3
Digest.IndexLowerBound (correctness),Passed,00:00:00.0126150,17785,3
Imap.SelectedMailbox (well-formedness),Passed,00:00:00.0125729,20264,3
Text.OffsetTail (well-formedness),Passed,00:00:00.0123757,13850,3
Digest.Framed (correctness),Passed,00:00:00.0123011,21230,3
Settings.UpperName (well-formedness),Passed,00:00:00.0122672,25990,3
Sender.EmailSender._ctor (correctness),Passed,00:00:00.0121070,31725,3
Text.Join (well-formedness),Passed,00:00:00.0120655,13245,3
Calendar.TwoDigitsRoundTrip (well-formedness),Passed,00:00:00.0118740,18309,3
Sender.ImageParts (well-formedness),Passed,00:00:00.0118340,32080,3
Sender.NewEmailSender (well-formedness),Passed,00:00:00.0117464,26740,3
Sender.AddressHeaders (well-formedness),Passed,00:00:00.0116980,20319,3
Calendar.PreviousMonthEnd (well-formedness),Passed,00:00:00.0115073,26925,3
Text.ParseDecimal (well-formedness),Passed,00:00:00.0113269,22202,3
Calendar.Ordinal (well-formedness),Passed,00:00:00.0110159,20705,3
Sender.ValidConfigBuildsSender (correctness),Passed,00:00:00.0109291,24779,3
Calendar.TwoDigits (well-formedness),Passed,00:00:00.0108759,24401,3
Calendar.IsLeap (well-formedness),Passed,00:00:00.0107972,6084,3
Fetcher.ValidConfigBuildsFetcher (correctness),Passed,00:00:00.0107805,24781,3
Digest.IndexUpperBound (correctness),Passed,00:00:00.0105132,21208,3
Text.HeadLayout (well-formedness),Passed,00:00:00.0102553,12743,3
Calendar.MultipleOf100 (correctness),Passed,00:00:00.0101132,5348,3
Text.ShiftLayout (well-formedness),Passed,00:00:00.0100619,16505,3
Text.SliceShift (well-formedness),Passed,00:00:00.0099803,13329,3
Calendar.Valid (well-formedness),Passed,00:00:00.0099595,16292,3
Imap.Quotable (well-formedness),Passed,00:00:00.0098915,9372,3
Calendar.Divisors (correctness),Passed,00:00:00.0098711,9834,3
Digest.IdentityPermutation (well-formedness),Passed,00:00:00.0098152,15209,3
Digest.IdentityPermutation (correctness),Passed,00:00:00.0097226,22484,3
Calendar.DaysBeforeYearNonNegative (correctness),Passed,00:00:00.0096549,16072,3
Text.OccursShift (well-formedness),Passed,00:00:00.0093040,11598,3
Text.UpperChar (well-formedness),Passed,00:00:00.0091416,6546,3
Sender.MimeMultipart.AsDraft (well-formedness),Passed,00:00:00.0089367,14378,3
Calendar.OrdinalPositive (correctness),Passed,00:00:00.0088375,23794,3
Calendar.QuotientStep (correctness),Passed,00:00:00.0087967,42282,3
Calendar.PreviousYearEnd (well-formedness),Passed,00:00:00.0085673,22851,3
Digest.IndexFree (well-formedness),Passed,00:00:00.0085492,11206,3
Calendar.WeekArithmetic (correctness),Passed,00:00:00.0084033,12266,3
Calendar.DaysBeforeMonthNonNegative (well-formedness),Passed,00:00:00.0083406,10130,3
Text.SliceShift (correctness),Passed,00:00:00.0083229,17030,3
Text.DigitChar (well-formedness),Passed,00:00:00.0082231,8912,3
Calendar.Weekday (well-formedness),Passed,00:00:00.0074804,21064,3
Summary.OptStr (well-formedness),Passed,00:00:00.0074363,10439,3
Calendar.DaysBeforeYearNonNegative (well-formedness),Passed,00:00:00.0072415,5034,3
Calendar.DaysBeforeYear (well-formedness),Passed,00:00:00.0070430,5941,3
Digest.Framed (well-formedness),Passed,00:00:00.0069025,11673,3
Calendar.MultipleOf400 (well-formedness),Passed,00:00:00.0067834,3942,3
Calendar.DaysBeforeNextYear (well-formedness),Passed,00:00:00.0067058,7316,3
Calendar.Divisors (well-formedness),Passed,00:00:00.0064136,5383,3
Calendar.QuotientStep (well-formedness),Passed,00:00:00.0061529,8704,3
Calendar.DaysBeforeMonthYear (well-formedness),Passed,00:00:00.0059572,10447,3
Calendar.MultipleOf400 (correctness),Passed,00:00:00.0057856,5348,3
Calendar.WeekArithmetic (well-formedness),Passed,00:00:00.0053003,4953,3
Calendar.MultipleOf100 (well-formedness),Passed,00:00:00.0045444,3942,3
