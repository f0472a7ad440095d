TestResult.DisplayName,TestResult.Outcome,TestResult.Duration,TestResult.ResourceCount,RandomSeed
Sender.DraftHeaderValues (correctness),Failed,00:00:00.6481128,2039997,2
Fetcher.WeeklyReportsSound (correctness),Passed,00:00:00.2818776,512880,2
Sender.AddressHeaderValues (correctness),Passed,00:00:00.2103488,529852,2
Fetcher.WeeklyReports (well-formedness),Passed,00:00:00.1890161,189988,2
Settings.UpperKeys (correctness),Passed,00:00:00.1871826,499017,2
Digest.SortIsStablePermutation (correctness),Passed,00:00:00.1863392,421795,2
Summary.RequestCarriesDigest (correctness),Passed,00:00:00.1702121,275423,2
Summary.GeneratedIff (correctness),Passed,00:00:00.1665908,412336,2
Fetcher.WeeklyReportsComplete (correctness),Passed,00:00:00.1586820,272338,2
Fetcher.EmailFetcher.FetchWeeklyReports (correctness),Passed,00:00:00.1526840,282717,2
Summary.RequestFor (well-formedness),Passed,00:00:00.1487762,146257,2
Fetcher.CollectAppend (correctness),Passed,00:00:00.1452063,301596,2
Fetcher.EmailFetcher.FetchDrafts (correctness),Passed,00:00:00.1385465,239141,2
Summary.RequestCarriesDigest (well-formedness),Passed,00:00:00.1370772,267882,2
Fetcher.Collect (well-formedness),Passed,00:00:00.1344229,71783,2
Digest.AllUndatedKeepOrder (correctness),Passed,00:00:00.1340016,323647,2
Digest.Insert (well-formedness),Passed,00:00:00.1291655,334150,2
Digest.FormatReports (correctness),Passed,00:00:00.1250175,310133,2
Fetcher.WeeklyReportsSound (well-formedness),Passed,00:00:00.1198446,199318,2
Settings.MissingImapRequired (correctness),Passed,00:00:00.1191423,350917,2
Fetcher.EmailFetcher.FetchWeeklyReports (well-formedness),Passed,00:00:00.1169383,205698,2
Fetcher.EmailFetcher.FetchDrafts (well-formedness),Passed,00:00:00.1137902,228921,2
Summary.GeneratedIff (well-formedness),Passed,00:00:00.1125639,240969,2
Fetcher.WeeklyReportsBound (well-formedness),Passed,00:00:00.1094590,198893,2
Calendar.ParseDateTextRoundTrip (correctness),Passed,00:00:00.1091581,381676,2
Fetcher.WeeklyReportsFailedSearch (well-formedness),Passed,00:00:00.1084706,194754,2
Fetcher.WeeklyReportsBound (correctness),Passed,00:00:00.1077033,203795,2
Fetcher.CollectExact (correctness),Passed,00:00:00.1072700,158434,2
Digest.Keys (well-formedness),Passed,00:00:00.1071769,61863,2
Sender.EmailSender.SetAddressHeaders (correctness),Passed,00:00:00.1065555,602960,2
Fetcher.EmailFetcher._ctor (correctness),Passed,00:00:00.1055231,30169,2
Sender.DraftHeaderRules (correctness),Passed,00:00:00.1048375,328162,2
Text.LaterLayout (correctness),Passed,00:00:00.1046951,647842,2
Sender.MimeMultipart.Attach (correctness),Passed,00:00:00.1042774,27541,2
Imap.DateTextQuotable (correctness),Passed,00:00:00.1037503,393385,2
Sender.EmailSender.CreateMessage (correctness),Passed,00:00:00.1036096,183836,2
Calendar.MonthNumberOfAbbrev (correctness),Passed,00:00:00.1022563,321709,2
Settings.MissingImap (well-formedness),Passed,00:00:00.1014540,59033,2
Summary.HttpErrorNamesStatusAndText (correctness),Passed,00:00:00.0994157,155264,2
Digest.SortIsStablePermutation (well-formedness),Passed,00:00:00.0983442,157043,2
Settings.GetMissingConfig (correctness),Passed,00:00:00.0981602,257989,2
Fetcher.CollectStep (correctness),Passed,00:00:00.0958903,153279,2
Sender.EmailSender.SaveToDraftsAsWritten (correctness),Passed,00:00:00.0932670,157867,2
Wrappers.Truthy (well-formedness),Passed,00:00:00.0915836,9380,2
Mime.FirstBodyPayloadIsFirst (correctness),Passed,00:00:00.0901964,255000,2
Text.ParseDecimalOfDecimal (correctness),Passed,00:00:00.0897153,69338,2
Digest.UnparseableDateFallsBack (well-formedness),Passed,00:00:00.0871956,108400,2
Sender.EmailSender.SaveToDrafts (correctness),Passed,00:00:00.0859582,157827,2
Fetcher.WeeklyReportsFailedSearch (correctness),Passed,00:00:00.0833433,195767,2
Calendar.DaysBeforeMonthYear (correctness),Passed,00:00:00.0829666,116513,2
Mime.DecodeHeaderFirstSegmentOnly (correctness),Passed,00:00:00.0801151,43130,2
Fetcher.WeeklyReportsComplete (well-formedness),Passed,00:00:00.0782281,198800,2
Digest.SortedReports (well-formedness),Passed,00:00:00.0781734,147127,2
Summary.NoReportsSendsNothing (correctness),Passed,00:00:00.0771980,200126,2
Digest.UnparseableDateFallsBack (correctness),Passed,00:00:00.0758297,117124,2
Summary.HttpErrorNamesStatusAndText (well-formedness),Passed,00:00:00.0735082,79660,2
Calendar.QuotientStep (well-formedness),Passed,00:00:00.0721139,8578,2
Fetcher.ContributionIff (correctness),Passed,00:00:00.0719837,76645,2
Text.Offset (well-formedness),Passed,00:00:00.0715520,12211,2
Sender.MissingFolderReportedAsSaved (correctness),Passed,00:00:00.0710204,144023,2
Mime.Walk (well-formedness),Passed,00:00:00.0705683,32379,2
Mime.DecodeHeaderIgnoresCharset (correctness),Passed,00:00:00.0705324,41731,2
Sender.EmailSender.SaveToDrafts (well-formedness),Passed,00:00:00.0700133,134937,2
Imap.Connection.Search (well-formedness),Passed,00:00:00.0674120,100950,2
Fetcher.ReportFrom (well-formedness),Passed,00:00:00.0663323,79306,2
Fetcher.CollectIsKept (correctness),Passed,00:00:00.0659431,127961,2
Imap.Connection.Select (correctness),Passed,00:00:00.0656156,84874,2
Mime.WalkAll (well-formedness),Passed,00:00:00.0655017,27334,2
Settings.MissingConfigDistinct (correctness),Passed,00:00:00.0637836,247176,2
Fetcher.CollectStep (well-formedness),Passed,00:00:00.0609398,105612,2
Sender.DraftHeaderNames (correctness),Passed,00:00:00.0599513,164316,2
Fetcher.CollectBound (correctness),Passed,00:00:00.0589577,76766,2
Mime.MultipartBodySource (correctness),Passed,00:00:00.0580850,152210,2
Calendar.WeekStartOf (correctness),Passed,00:00:00.0574283,517421,2
Digest.Sort (well-formedness),Passed,00:00:00.0573282,104562,2
Sender.EmailSender.SaveToDraftsAsWritten (well-formedness),Passed,00:00:00.0566869,133346,2
Settings.MissingImapStep (correctness),Passed,00:00:00.0565770,181814,2
Digest.DigestLayout (correctness),Passed,00:00:00.0565726,127850,2
Digest.DigestLayout (well-formedness),Passed,00:00:00.0561599,132811,2
Digest.AllUndatedKeepOrder (well-formedness),Passed,00:00:00.0559275,126373,2
Digest.FormatEntry (correctness),Passed,00:00:00.0550751,64850,2
Sender.DraftHeaderRules (well-formedness),Passed,00:00:00.0549099,129111,2
Imap.ParseSinceRoundTrip (correctness),Passed,00:00:00.0545317,97088,2
Sender.DraftPartRules (well-formedness),Passed,00:00:00.0545219,96893,2
Sender.HeaderValuesAppend (correctness),Passed,00:00:00.0543581,136545,2
Calendar.ParseDateText (well-formedness),Passed,00:00:00.0540429,63011,2
Fetcher.Contributions (well-formedness),Passed,00:00:00.0537312,94817,2
Digest.Sections (well-formedness),Passed,00:00:00.0526781,135948,2
Fetcher.EmailFetcher.SelectFolder (well-formedness),Passed,00:00:00.0526320,74142,2
Fetcher.EmailFetcher.SelectFolder (correctness),Passed,00:00:00.0526108,86777,2
Fetcher.ProcessReply (correctness),Passed,00:00:00.0518780,86643,2
Digest.UndatedBesideAwareFallsBack (correctness),Passed,00:00:00.0503282,139722,2
Digest.UndatedBesideAwareFallsBack (well-formedness),Passed,00:00:00.0501874,110183,2
Imap.Connection.Search (correctness),Passed,00:00:00.0499908,114736,2
Calendar.NoLaterMonday (correctness),Passed,00:00:00.0499889,378185,2
Fetcher.SkippedReply (correctness),Passed,00:00:00.0494851,79160,2
Digest.FallbackWhenSortRaises (correctness),Passed,00:00:00.0485011,108066,2
Mime.ExtractEmailBody (correctness),Passed,00:00:00.0483775,111946,2
Summary.PayloadMembers (correctness),Passed,00:00:00.0475568,80552,2
Fetcher.EmailFetcher.Enter (correctness),Passed,00:00:00.0462184,91020,2
Fetcher.CollectExact (well-formedness),Passed,00:00:00.0453637,74408,2
Digest.SectionShape (correctness),Passed,00:00:00.0453369,198831,2
Fetcher.EmailFetcher.Enter (well-formedness),Passed,00:00:00.0452190,67159,2
Fetcher.Kept (well-formedness),Passed,00:00:00.0443274,16719,2
Sender.EmailSender.AppendToDrafts (correctness),Passed,00:00:00.0433953,110409,2
Sender.EmailSender.SetAddressHeaders (well-formedness),Passed,00:00:00.0427820,29507,2
Sender.EmailSender.CreateMessage (well-formedness),Passed,00:00:00.0418116,89169,2
Mime.MultipartBodySource (well-formedness),Passed,00:00:00.0408328,87579,2
Digest.FormattedDigest (well-formedness),Passed,00:00:00.0406398,105931,2
Digest.SortedItems (well-formedness),Passed,00:00:00.0404854,81335,2
Imap.Connection.Append (correctness),Passed,00:00:00.0403403,98753,2
Fetcher.KeptLast (correctness),Passed,00:00:00.0396594,107636,2
Calendar.FourDigitYear (correctness),Passed,00:00:00.0391462,179807,2
Fetcher.ContributionIff (well-formedness),Passed,00:00:00.0385176,71813,2
Imap.IdsSinceExact (correctness),Passed,00:00:00.0379005,144332,2
Sender.SavedAsWrittenIff (correctness),Passed,00:00:00.0372911,63002,2
Fetcher.Replies (well-formedness),Passed,00:00:00.0370375,67740,2
Digest.IndexLowerBound (well-formedness),Passed,00:00:00.0362873,13045,2
Settings.UncheckedItemsIrrelevant (correctness),Passed,00:00:00.0361815,158004,2
Digest.SectionShape (well-formedness),Passed,00:00:00.0358483,52170,2
Digest.Decorate (well-formedness),Passed,00:00:00.0354359,61995,2
Sender.DraftPartRules (correctness),Passed,00:00:00.0345430,112609,2
Sender.DraftSavedIff (correctness),Passed,00:00:00.0342851,66240,2
Calendar.DateTextLength (correctness),Passed,00:00:00.0320735,110514,2
Calendar.ThisMonday (well-formedness),Passed,00:00:00.0302963,114974,2
Imap.Connection.Append (well-formedness),Passed,00:00:00.0294197,76256,2
Fetcher.KeptExact (correctness),Passed,00:00:00.0289959,42478,2
Summary.ReplyContentOfAnswer (correctness),Passed,00:00:00.0288213,80365,2
Digest.SortSucceeds (well-formedness),Passed,00:00:00.0285233,45296,2
Text.HeadLayout (well-formedness),Passed,00:00:00.0278596,12734,2
Imap.Connection.Login (correctness),Passed,00:00:00.0275097,60968,2
Sender.EmailSender.AttachImage (correctness),Passed,00:00:00.0273833,67444,2
Sender.EmailSender.AppendToDrafts (well-formedness),Passed,00:00:00.0272576,74042,2
Text.Decimal (well-formedness),Passed,00:00:00.0271965,49589,2
Imap.Connection.Fetch (correctness),Passed,00:00:00.0270765,68270,2
Calendar.DaysBeforeMonthNonNegative (correctness),Passed,00:00:00.0266940,83571,2
Summary.ValidConfigBuildsAssistant (correctness),Passed,00:00:00.0263997,46637,2
Settings.MissingImapStep (well-formedness),Passed,00:00:00.0263381,70650,2
Imap.Connection.Fetch (well-formedness),Passed,00:00:00.0261938,51954,2
Sender.EmailSender.AttachImage (well-formedness),Passed,00:00:00.0261440,53214,2
Text.JoinLaidOut (correctness),Passed,00:00:00.0260943,24362,2
Settings.ValidIffNothingMissing (correctness),Passed,00:00:00.0258034,58472,2
Imap.NonAsciiFolderRaises (correctness),Passed,00:00:00.0256141,61555,2
Settings.MissingConfigDistinct (well-formedness),Passed,00:00:00.0255944,31546,2
Sender.EmailSender._ctor (correctness),Passed,00:00:00.0255863,31694,2
Imap.IdsSinceExact (well-formedness),Passed,00:00:00.0255653,29613,2
Digest.DistinctIndices (well-formedness),Passed,00:00:00.0255369,12751,2
Settings.MissingImapRequired (well-formedness),Passed,00:00:00.0254205,53312,2
Imap.ParseSinceRoundTrip (well-formedness),Passed,00:00:00.0248994,71966,2
Imap.ParseSince (well-formedness),Passed,00:00:00.0248789,46856,2
Mime.DecodeHeaderFirstSegmentOnly (well-formedness),Passed,00:00:00.0245262,34816,2
Digest.SortKey (well-formedness),Passed,00:00:00.0243230,29250,2
Text.JoinLaidOut (well-formedness),Passed,00:00:00.0240437,17973,2
Calendar.PreviousYearEnd (correctness),Passed,00:00:00.0239426,94129,2
Summary.NewAssistant (well-formedness),Passed,00:00:00.0237834,46388,2
Text.Upper (well-formedness),Passed,00:00:00.0235074,38881,2
Imap.IdsSince (well-formedness),Passed,00:00:00.0235057,31946,2
Summary.ReplyContent (well-formedness),Passed,00:00:00.0234991,38402,2
Fetcher.KeptLast (well-formedness),Passed,00:00:00.0234131,27666,2
Sender.DraftHeaderValues (well-formedness),Passed,00:00:00.0233576,49184,2
Calendar.ThisMondayIsWeekStart (well-formedness),Passed,00:00:00.0230788,51488,2
Text.JoinLayout (correctness),Passed,00:00:00.0228879,51945,2
Imap.FolderReplies (correctness),Passed,00:00:00.0219065,67426,2
Summary.HeadersMembers (well-formedness),Passed,00:00:00.0215609,51602,2
Imap.Connection.Select (well-formedness),Passed,00:00:00.0215127,66309,2
Calendar.Yesterday (well-formedness),Passed,00:00:00.0214976,73521,2
Summary.ChatMessageMembers (correctness),Passed,00:00:00.0209375,48341,2
Imap.Connection.Login (well-formedness),Passed,00:00:00.0206526,52784,2
Summary.HeadersMembers (correctness),Passed,00:00:00.0203463,72290,2
Calendar.DateText (well-formedness),Passed,00:00:00.0201570,70662,2
Mime.EmailBody (well-formedness),Passed,00:00:00.0201184,50558,2
Digest.TailIndexFree (correctness),Passed,00:00:00.0199726,44170,2
Sender.MimeMultipart._ctor (correctness),Passed,00:00:00.0196302,35793,2
Calendar.ParseDateTextRoundTrip (well-formedness),Passed,00:00:00.0193201,62359,2
Calendar.DaysBefore (well-formedness),Passed,00:00:00.0191898,43722,2
Digest.HeadBeforeRest (correctness),Passed,00:00:00.0190124,38585,2
Calendar.WeekStartOf (well-formedness),Passed,00:00:00.0188082,40090,2
Mime.IsBodyPart (well-formedness),Passed,00:00:00.0182356,35659,2
Text.ShiftLayout (correctness),Passed,00:00:00.0182099,38583,2
Fetcher.EmailFetcher._ctor (well-formedness),Passed,00:00:00.0180232,24626,2
Sender.ImageParts (well-formedness),Passed,00:00:00.0179830,32082,2
Sender.MimeMultipart.Attach (well-formedness),Passed,00:00:00.0179499,23412,2
Mime.FirstBodyPayloadIsFirst (well-formedness),Passed,00:00:00.0179018,57159,2
Mime.DecodeHeader (well-formedness),Passed,00:00:00.0178985,31591,2
Text.Contains (well-formedness),Passed,00:00:00.0177671,12667,2
Imap.Connection._ctor (correctness),Passed,00:00:00.0176914,35609,2
Imap.FetchReply (well-formedness),Passed,00:00:00.0175175,35179,2
Calendar.PreviousMonthEnd (correctness),Passed,00:00:00.0174652,72819,2
Digest.IndexUpperBound (well-formedness),Passed,00:00:00.0172601,15214,2
Digest.KeysParse (well-formedness),Passed,00:00:00.0172549,31636,2
Text.ContainsIffOccurs (correctness),Passed,00:00:00.0172292,47638,2
Calendar.ThisMondayIsWeekStart (correctness),Passed,00:00:00.0170157,42581,2
Digest.Label (well-formedness),Passed,00:00:00.0168149,31506,2
Mime.FirstBodyPayload (well-formedness),Passed,00:00:00.0166131,40599,2
Sender.NewEmailSender (well-formedness),Passed,00:00:00.0165833,26739,2
Imap.SinceCriterion (well-formedness),Passed,00:00:00.0165638,45431,2
Text.JoinLayout (well-formedness),Passed,00:00:00.0165292,24183,2
Sender.ValidConfigBuildsSender (correctness),Passed,00:00:00.0161917,24778,2
Digest.TailIndexFree (well-formedness),Passed,00:00:00.0159766,20995,2
Imap.AsciiQuote (correctness),Passed,00:00:00.0159582,26055,2
Sender.MimeMultipart.SetHeader (correctness),Passed,00:00:00.0159555,20849,2
Text.OffsetTail (correctness),Passed,00:00:00.0157215,29368,2
Calendar.TwoDigitsRoundTrip (correctness),Passed,00:00:00.0154974,53331,2
Text.OccursShift (correctness),Passed,00:00:00.0153448,30073,2
Sender.AddressHeaderValues (well-formedness),Passed,00:00:00.0150459,35147,2
Sender.HeaderValuesSingle (correctness),Passed,00:00:00.0148776,26479,2
Summary.OptStr (well-formedness),Passed,00:00:00.0146944,10441,2
Calendar.MonthNumberOfAbbrev (well-formedness),Passed,00:00:00.0145881,31871,2
Calendar.PreviousMonthEnd (well-formedness),Passed,00:00:00.0145302,26934,2
Settings.UpperName (correctness),Passed,00:00:00.0144314,33696,2
Summary.Element (well-formedness),Passed,00:00:00.0143989,22570,2
Text.SliceShift (well-formedness),Passed,00:00:00.0143975,13328,2
Calendar.DateTextLength (well-formedness),Passed,00:00:00.0141808,43592,2
Sender.DraftHeaderNames (well-formedness),Passed,00:00:00.0141495,43534,2
Summary.Member (well-formedness),Passed,00:00:00.0139781,22668,2
Sender.NewEmailSender (correctness),Passed,00:00:00.0139551,32428,2
Sender.MimeMultipart.AsDraft (well-formedness),Passed,00:00:00.0138402,14378,2
Calendar.PreviousYearEnd (well-formedness),Passed,00:00:00.0138020,22849,2
Imap.DateTextQuotable (well-formedness),Passed,00:00:00.0137703,45614,2
Fetcher.NewEmailFetcher (correctness),Passed,00:00:00.0137479,29418,2
Text.ContainsMiddle (correctness),Passed,00:00:00.0137377,24319,2
Settings.UpperName (well-formedness),Passed,00:00:00.0137366,25989,2
Imap.Unquote (well-formedness),Passed,00:00:00.0136926,24062,2
Digest.HeadBeforeRest (well-formedness),Passed,00:00:00.0135540,23320,2
Text.LaidOut (well-formedness),Passed,00:00:00.0135111,23122,2
Text.OccursAt (well-formedness),Passed,00:00:00.0134687,10616,2
Calendar.DaysInMonth (well-formedness),Passed,00:00:00.0133754,18388,2
Text.ParseDecimalOfDecimal (well-formedness),Passed,00:00:00.0133351,21302,2
Text.HeadLayout (correctness),Passed,00:00:00.0131441,31552,2
Fetcher.KeptExact (well-formedness),Passed,00:00:00.0129289,18611,2
Digest.IndexUpperBound (correctness),Passed,00:00:00.0127902,21167,2
Calendar.DaysBeforeNextYear (correctness),Passed,00:00:00.0127304,58456,2
Calendar.DaysBeforeYearNonNegative (correctness),Passed,00:00:00.0124948,12858,2
Imap.Quotable (well-formedness),Passed,00:00:00.0122318,9357,2
Text.ShiftLayout (well-formedness),Passed,00:00:00.0119069,16503,2
Text.OffsetTail (well-formedness),Passed,00:00:00.0118692,13849,2
Calendar.Weekday (well-formedness),Passed,00:00:00.0118264,21086,2
Calendar.DaysBeforeMonthYear (well-formedness),Passed,00:00:00.0118040,10448,2
Calendar.Ordinal (well-formedness),Passed,00:00:00.0117043,20672,2
Sender.MimeMultipart.SetHeader (well-formedness),Passed,00:00:00.0116536,17846,2
Calendar.OrdinalPositive (correctness),Passed,00:00:00.0116441,23670,2
Sender.HeaderValues (well-formedness),Passed,00:00:00.0116227,20928,2
Text.LaterLayout (well-formedness),Passed,00:00:00.0114532,24413,2
Imap.UnquoteQuote (correctness),Passed,00:00:00.0114490,25383,2
Digest.IdentityPermutation (correctness),Passed,00:00:00.0114242,21913,2
Digest.StrictlySorted (well-formedness),Passed,00:00:00.0114027,15949,2
Text.SliceShift (correctness),Passed,00:00:00.0111242,17089,2
Text.ParseDecimal (well-formedness),Passed,00:00:00.0111128,21898,2
Fetcher.ValidConfigBuildsFetcher (correctness),Passed,00:00:00.0110710,24780,2
Text.IsDigits (well-formedness),Passed,00:00:00.0109408,9823,2
Digest.IndexFree (well-formedness),Passed,00:00:00.0106924,11215,2
Calendar.OrdinalPositive (well-formedness),Passed,00:00:00.0106184,20202,2
Calendar.IsLeap (well-formedness),Passed,00:00:00.0104606,6084,2
Imap.Ascii (well-formedness),Passed,00:00:00.0104459,8626,2
Digest.IndexLowerBound (correctness),Passed,00:00:00.0103959,17744,2
Mime.Byte (well-formedness),Passed,00:00:00.0103392,3672,2
Fetcher.NewEmailFetcher (well-formedness),Passed,00:00:00.0103069,24935,2
Calendar.DaysBeforeMonth (well-formedness),Passed,00:00:00.0102434,11974,2
Calendar.NoLaterMonday (well-formedness),Passed,00:00:00.0102327,30717,2
Calendar.Valid (well-formedness),Passed,00:00:00.0100805,16288,2
Text.OccursShift (well-formedness),Passed,00:00:00.0100743,11597,2
Calendar.TwoDigits (well-formedness),Passed,00:00:00.0099829,24501,2
Calendar.QuotientStep (correctness),Passed,00:00:00.0097727,40606,2
Digest.Framed (correctness),Passed,00:00:00.0096927,21185,2
Digest.IdentityPermutation (well-formedness),Passed,00:00:00.0095957,15214,2
Calendar.MultipleOf400 (well-formedness),Passed,00:00:00.0093895,3943,2
Sender.AddressHeaders (well-formedness),Passed,00:00:00.0093279,20304,2
Digest.OneKind (well-formedness),Passed,00:00:00.0089272,11534,2
Imap.SelectedMailbox (well-formedness),Passed,00:00:00.0088297,20264,2
Calendar.DaysBeforeMonthNonNegative (well-formedness),Passed,00:00:00.0086684,10142,2
Calendar.DaysBeforeYear (well-formedness),Passed,00:00:00.0085465,5940,2
Calendar.TwoDigitsRoundTrip (well-formedness),Passed,00:00:00.0085055,18306,2
Calendar.Divisors (correctness),Passed,00:00:00.0080958,10109,2
Text.DigitChar (well-formedness),Passed,00:00:00.0080563,8912,2
Digest.Framed (well-formedness),Passed,00:00:00.0076534,11687,2
Text.Join (well-formedness),Passed,00:00:00.0075836,13244,2
Calendar.DaysBeforeYearNonNegative (well-formedness),Passed,00:00:00.0069468,5033,2
Calendar.MultipleOf100 (well-formedness),Passed,00:00:00.0066519,3943,2
Text.UpperChar (well-formedness),Passed,00:00:00.0066215,6547,2
Calendar.MultipleOf100 (correctness),Passed,00:00:00.0061997,5349,2
Calendar.MultipleOf400 (correctness),Passed,00:00:00.0061466,5349,2
Calendar.Divisors (well-formedness),Passed,00:00:00.0060834,5383,2
Calendar.WeekArithmetic (correctness),Passed,00:00:00.0059938,12266,2
Calendar.WeekArithmetic (well-formedness),Passed,00:00:00.0052792,4953,2
Calendar.DaysBeforeNextYear (well-formedness),Passed,00:00:00.0051362,7315,2
