/**
 * `EmailFetcher` of `utils/email_fetcher.py`: folder selection, the weekly search
 * and the loop that keeps the daily reports, over one IMAP connection.
 */
module Fetcher {
  import opened Wrappers
  import opened Text
  import opened Calendar
  import opened Mime
  import opened Imap
  import opened Settings

  /** One daily report: the raw Date header (None when absent) and the body text. */
  datatype Report = Report(date: Option<string>, body: string)

  /** What one FETCH reply contributes: a report when the message passes the filter. */
  function Contribution(reply: Reply<Message>, keyword: string, codecs: Codecs): Option<Report> {
    match reply
    case Ok(msg) =>
      if Contains(DecodeHeader(msg.subject, codecs), keyword) then
        var body := EmailBody(msg.content, codecs);
        if body != "" then Some(Report(msg.date, body)) else None
      else
        None
    case No => None
    case Raised => None
  }

  /** The reports the loop collects from a run of FETCH replies, in order. */
  function Collect(replies: seq<Reply<Message>>, keyword: string, codecs: Codecs): seq<Report>
    decreases |replies|
  {
    if replies == [] then []
    else
      Collect(replies[..|replies| - 1], keyword, codecs) +
      match Contribution(replies[|replies| - 1], keyword, codecs)
      case Some(r) => [r]
      case None => []
  }

  /** The server's FETCH reply for each id, in order. */
  function Replies(st: ServerState, ids: seq<nat>): (rs: seq<Reply<Message>>)
    ensures |rs| == |ids| && forall i :: 0 <= i < |ids| ==> rs[i] == FetchReply(st, ids[i])
  {
    seq(|ids|, i requires 0 <= i < |ids| => FetchReply(st, ids[i]))
  }

  /** What `fetch_weekly_reports` returns when run against server state `st`. */
  function WeeklyReports(st: ServerState, keyword: string, today: Date, codecs: Codecs): seq<Report>
    requires Valid(today)
  {
    match SearchReply(st, SinceCriterion(ThisMonday(today)))
    case Ok(ids) => Collect(Replies(st, ids), keyword, codecs)
    case No => []
    case Raised => []
  }

  /** The constructor's check: server, username and password all set and non-empty. */
  predicate FetcherSettingsComplete(s: ImapSettings) {
    Truthy(s.server) && Truthy(s.username) && Truthy(s.password)
  }

  class EmailFetcher {
    const imapServer: string
    const username: string
    const password: string
    const sent: Option<string>
    const drafts: Option<string>
    /** `self.imap`: the connection `__enter__` opened and logged in on. */
    const session: Connection

    constructor (settings: ImapSettings, session: Connection)
      requires FetcherSettingsComplete(settings)
      ensures this.session == session && sent == settings.sent && drafts == settings.drafts
      ensures username == settings.username.value
    {
      imapServer := settings.server.value;
      username := settings.username.value;
      password := settings.password.value;
      sent := settings.sent;
      drafts := settings.drafts;
      this.session := session;
    }

    /**
     * The login and default selection of `__enter__` on the opened connection: False
     * where `__enter__` raises (login refused or connection lost); otherwise the sent
     * folder is selected, whatever the server answers to that.
     */
    method Enter() returns (ok: bool)
      modifies session
      ensures ok == LoginReply(old(session.state), username, password).Ok?
      ensures session.state == if ok then AfterSelect(AfterLogin(old(session.state), username, password), FolderArg(sent))
                               else old(session.state)
      ensures session.appended == old(session.appended)
    {
      var login := session.Login(username, password);
      if !login.Ok? {
        return false;
      }
      var _ := SelectFolder(sent);
      ok := true;
    }

    /** `select_folder`: True exactly when the server answers OK; never raises. */
    method SelectFolder(name: Option<string>) returns (ok: bool)
      modifies session
      ensures ok == SelectReply(old(session.state), FolderArg(name)).Ok?
      ensures session.state == AfterSelect(old(session.state), FolderArg(name))
      ensures session.commands == old(session.commands) + [SelectCmd(FolderArg(name))]
      ensures session.appended == old(session.appended)
    {
      var reply := session.Select(FolderArg(name));
      match reply {
        case Ok(_) => ok := true;
        case No => ok := false;      // logged as a warning
        case Raised => ok := false;  // logged as an error
      }
    }

    /**
   * `fetch_weekly_reports`: search since this Monday, keep the matching reports. The
   * keyword (default "日报") is a parameter here.
   */
    method FetchWeeklyReports(keyword: string, today: Date, codecs: Codecs) returns (results: seq<Report>)
      requires Valid(today)
      modifies session
      ensures results == WeeklyReports(old(session.state), keyword, today, codecs)
      ensures session.state == old(session.state) && session.appended == old(session.appended)
    {
      var thisMonday := ThisMonday(today);
      var search := session.Search(SinceCriterion(thisMonday));
      if !search.Ok? {
        // a NO answer is logged and gives []; an exception is caught by the outer handler
        return [];
      }
      var ids := search.value;
      results := [];
      var i := 0;
      while i < |ids|
        invariant 0 <= i <= |ids|
        invariant session.state == old(session.state) && session.appended == old(session.appended)
        invariant results == Collect(Replies(session.state, ids[..i]), keyword, codecs)
      {
        CollectStep(session.state, ids, i, keyword, codecs);
        var reply := session.Fetch(ids[i]);
        var report := ProcessReply(reply, keyword, codecs);
        if report.Some? {
          results := results + [report.value];
        }
        i := i + 1;
      }
      assert ids[..|ids|] == ids;
    }

    /**
   * `fetch_drafts`: the same search in the drafts folder, or [] when it cannot be
   * selected; its keyword also defaults to "日报".
   */
    method FetchDrafts(keyword: string, today: Date, codecs: Codecs) returns (results: seq<Report>)
      requires Valid(today)
      modifies session
      ensures var selected := SelectReply(old(session.state), FolderArg(drafts)).Ok?;
        && session.state == AfterSelect(old(session.state), FolderArg(drafts))
        && results == (if selected then WeeklyReports(session.state, keyword, today, codecs) else [])
        && (!selected ==> session.commands == old(session.commands) + [SelectCmd(FolderArg(drafts))])
      ensures session.appended == old(session.appended)
    {
      var ok := SelectFolder(drafts);
      if ok {
        results := FetchWeeklyReports(keyword, today, codecs);
      } else {
        results := [];
      }
    }
  }

  /**
   * The body of the per-message loop: decode the subject, test the keyword, extract
   * the body; a failed fetch contributes nothing.
   */
  method ProcessReply(reply: Reply<Message>, keyword: string, codecs: Codecs) returns (report: Option<Report>)
    ensures report == Contribution(reply, keyword, codecs)
  {
    report := None;
    match reply {
      case Ok(msg) =>
        var subject := DecodeHeader(msg.subject, codecs);
        if Contains(subject, keyword) {
          var date := msg.date;
          var body := ExtractEmailBody(msg.content, codecs);
          if body != "" {
            report := Some(Report(date, body));
          }
        }
      case No =>      // logged, skipped
      case Raised =>  // caught by the per-message handler, skipped
    }
  }

  // ---- properties of the filter ----

  /** One more id extends the collected reports by that message's contribution. */
  lemma CollectStep(st: ServerState, ids: seq<nat>, i: nat, keyword: string, codecs: Codecs)
    requires i < |ids|
    ensures Collect(Replies(st, ids[..i + 1]), keyword, codecs) ==
      Collect(Replies(st, ids[..i]), keyword, codecs) +
      match Contribution(FetchReply(st, ids[i]), keyword, codecs)
      case Some(r) => [r]
      case None => []
  {
    assert Replies(st, ids[..i + 1])[..i] == Replies(st, ids[..i]);
  }

  /** A reply contributes exactly when it is OK, its subject has the keyword and its body is non-empty. */
  lemma ContributionIff(reply: Reply<Message>, keyword: string, codecs: Codecs, r: Report)
    ensures Contribution(reply, keyword, codecs) == Some(r) <==>
      && reply.Ok?
      && Contains(DecodeHeader(reply.value.subject, codecs), keyword)
      && r.body == EmailBody(reply.value.content, codecs) && r.body != ""
      && r.date == reply.value.date
  {
  }

  /** Collecting distributes over concatenation: order is kept and no reply affects another. */
  lemma {:induction false} CollectAppend(a: seq<Reply<Message>>, b: seq<Reply<Message>>, keyword: string, codecs: Codecs)
    ensures Collect(a + b, keyword, codecs) == Collect(a, keyword, codecs) + Collect(b, keyword, codecs)
    decreases |b|
  {
    if b == [] {
      assert a + b == a;
    } else {
      var b' := b[..|b| - 1];
      CollectAppend(a, b', keyword, codecs);
      assert (a + b)[..|a + b| - 1] == a + b';
      assert (a + b)[|a + b| - 1] == b[|b| - 1];
    }
  }

  /** A failed fetch, or a message that does not match, is skipped and the rest still counts. */
  lemma SkippedReply(reply: Reply<Message>, rest: seq<Reply<Message>>, keyword: string, codecs: Codecs)
    requires Contribution(reply, keyword, codecs).None?
    ensures Collect([reply] + rest, keyword, codecs) == Collect(rest, keyword, codecs)
  {
    CollectAppend([reply], rest, keyword, codecs);
    assert [reply][..0] == [];
  }

  /** Never more reports than replies. */
  lemma {:induction false} CollectBound(replies: seq<Reply<Message>>, keyword: string, codecs: Codecs)
    ensures |Collect(replies, keyword, codecs)| <= |replies|
    decreases |replies|
  {
    if replies != [] {
      CollectBound(replies[..|replies| - 1], keyword, codecs);
    }
  }

  /** Every collected report comes from some reply, and every contributing reply is collected. */
  lemma CollectExact(replies: seq<Reply<Message>>, keyword: string, codecs: Codecs)
    ensures forall r :: r in Collect(replies, keyword, codecs) <==>
      exists i :: 0 <= i < |replies| && Contribution(replies[i], keyword, codecs) == Some(r)
  {
    var cs := Contributions(replies, keyword, codecs);
    CollectIsKept(replies, keyword, codecs);
    KeptExact(cs);
    forall r ensures r in Collect(replies, keyword, codecs) <==>
      exists i :: 0 <= i < |replies| && Contribution(replies[i], keyword, codecs) == Some(r)
    {
      if r in Kept(cs) {
        var i :| 0 <= i < |cs| && cs[i] == Some(r);
        assert Contribution(replies[i], keyword, codecs) == Some(r);
      }
    }
  }

  /** Each reply's contribution, in order. */
  function Contributions(replies: seq<Reply<Message>>, keyword: string, codecs: Codecs): (cs: seq<Option<Report>>)
    ensures |cs| == |replies|
    ensures forall i :: 0 <= i < |replies| ==> cs[i] == Contribution(replies[i], keyword, codecs)
  {
    seq(|replies|, i requires 0 <= i < |replies| => Contribution(replies[i], keyword, codecs))
  }

  /** The present values of a sequence of options, in order. */
  function Kept(cs: seq<Option<Report>>): seq<Report>
    decreases |cs|
  {
    if cs == [] then []
    else Kept(cs[..|cs| - 1]) + if cs[|cs| - 1].Some? then [cs[|cs| - 1].value] else []
  }

  lemma {:induction false} CollectIsKept(replies: seq<Reply<Message>>, keyword: string, codecs: Codecs)
    ensures Collect(replies, keyword, codecs) == Kept(Contributions(replies, keyword, codecs))
    decreases |replies|
  {
    if replies != [] {
      var front := replies[..|replies| - 1];
      CollectIsKept(front, keyword, codecs);
      assert Contributions(replies, keyword, codecs)[..|replies| - 1] == Contributions(front, keyword, codecs);
    }
  }

  lemma {:induction false} KeptExact(cs: seq<Option<Report>>)
    ensures forall r :: r in Kept(cs) <==> exists i :: 0 <= i < |cs| && cs[i] == Some(r)
    decreases |cs|
  {
    if cs != [] {
      var front := cs[..|cs| - 1];
      KeptExact(front);
      forall r ensures r in Kept(cs) <==> exists i :: 0 <= i < |cs| && cs[i] == Some(r) {
        KeptLast(cs, r);
      }
    }
  }

  /** The step of `KeptExact`: a value is kept from `cs` iff kept from its front or last. */
  lemma KeptLast(cs: seq<Option<Report>>, r: Report)
    requires cs != []
    requires var front := cs[..|cs| - 1];
      r in Kept(front) <==> exists i :: 0 <= i < |front| && front[i] == Some(r)
    ensures r in Kept(cs) <==> exists i :: 0 <= i < |cs| && cs[i] == Some(r)
  {
    var front := cs[..|cs| - 1];
    if r in Kept(front) {
      var i :| 0 <= i < |front| && front[i] == Some(r);
      assert cs[i] == Some(r);
    }
    if exists i :: 0 <= i < |cs| && cs[i] == Some(r) {
      var i :| 0 <= i < |cs| && cs[i] == Some(r);
      if i < |front| {
        assert front[i] == Some(r);
      }
    }
  }

  /** `r` is the report of stored message `mail` for a week starting `since`. */
  ghost predicate ReportFrom(mail: StoredMail, since: Date, keyword: string, codecs: Codecs, r: Report) {
    && OnOrAfter(mail.internalDate, since)
    && mail.fetch.Ok?
    && Contains(DecodeHeader(mail.fetch.value.subject, codecs), keyword)
    && r == Report(mail.fetch.value.date, EmailBody(mail.fetch.value.content, codecs))
    && r.body != ""
  }

  /**
   * Every weekly report comes from a message of the selected mailbox whose internal
   * date is this Monday or later, that was fetched, whose decoded subject contains the
   * keyword and whose body is the non-empty text the report carries.
   */
  lemma WeeklyReportsSound(st: ServerState, keyword: string, today: Date, codecs: Codecs, r: Report)
    requires Valid(today)
    requires r in WeeklyReports(st, keyword, today, codecs)
    ensures SelectedMailbox(st).Some?
    ensures exists k :: (0 <= k < |SelectedMailbox(st).value.mails| &&
      ReportFrom(SelectedMailbox(st).value.mails[k], ThisMonday(today), keyword, codecs, r))
  {
    var since := ThisMonday(today);
    ParseSinceRoundTrip(since);
    var mb := SelectedMailbox(st).value;
    var ids := IdsSince(mb.mails, since);
    IdsSinceExact(mb.mails, since);
    var rs := Replies(st, ids);
    CollectExact(rs, keyword, codecs);
    var i :| 0 <= i < |rs| && Contribution(rs[i], keyword, codecs) == Some(r);
    assert ids[i] in ids;
    ContributionIff(rs[i], keyword, codecs, r);
    assert ReportFrom(mb.mails[ids[i] - 1], since, keyword, codecs, r);
  }

  /**
   * Conversely, when the selected mailbox answers the search, the report of every
   * message that meets those conditions is among the weekly reports.
   */
  lemma WeeklyReportsComplete(st: ServerState, keyword: string, today: Date, codecs: Codecs, k: nat, r: Report)
    requires Valid(today)
    requires st.alive && SelectedMailbox(st).Some? && !SelectedMailbox(st).value.refusesSearch
    requires k < |SelectedMailbox(st).value.mails|
    requires ReportFrom(SelectedMailbox(st).value.mails[k], ThisMonday(today), keyword, codecs, r)
    ensures r in WeeklyReports(st, keyword, today, codecs)
  {
    var since := ThisMonday(today);
    ParseSinceRoundTrip(since);
    var mb := SelectedMailbox(st).value;
    var ids := IdsSince(mb.mails, since);
    IdsSinceExact(mb.mails, since);
    assert k + 1 in ids;
    var i :| 0 <= i < |ids| && ids[i] == k + 1;
    var rs := Replies(st, ids);
    assert rs[i] == mb.mails[k].fetch;
    ContributionIff(rs[i], keyword, codecs, r);
    CollectExact(rs, keyword, codecs);
  }

  /**
   * After `__enter__`, a sent folder that could not be selected leaves the session in
   * the authenticated state, whatever was selected before the login: the search then
   * raises and `fetch_weekly_reports` returns [].
   */
  lemma UnselectedAfterEnter(st: ServerState, user: string, password: string, sent: Option<string>,
                             keyword: string, today: Date, codecs: Codecs)
    requires Valid(today)
    requires LoginReply(st, user, password).Ok?
    requires !SelectReply(AfterLogin(st, user, password), FolderArg(sent)).Ok?
    ensures var entered := AfterSelect(AfterLogin(st, user, password), FolderArg(sent));
      SelectedMailbox(entered).None? && WeeklyReports(entered, keyword, today, codecs) == []
  {
  }

  /** A search that is not answered OK gives no reports. */
  lemma WeeklyReportsFailedSearch(st: ServerState, keyword: string, today: Date, codecs: Codecs)
    requires Valid(today)
    requires !SearchReply(st, SinceCriterion(ThisMonday(today))).Ok?
    ensures WeeklyReports(st, keyword, today, codecs) == []
  {
  }

  /** At most one report per message found by the search. */
  lemma WeeklyReportsBound(st: ServerState, keyword: string, today: Date, codecs: Codecs)
    requires Valid(today)
    requires SearchReply(st, SinceCriterion(ThisMonday(today))).Ok?
    ensures |WeeklyReports(st, keyword, today, codecs)| <=
      |SearchReply(st, SinceCriterion(ThisMonday(today))).value|
  {
    var ids := SearchReply(st, SinceCriterion(ThisMonday(today))).value;
    CollectBound(Replies(st, ids), keyword, codecs);
  }

  /** `EmailFetcher(config)`: raises ValueError (here None) unless server, username and password are all set. */
  method NewEmailFetcher(settings: ImapSettings, session: Connection) returns (f: Option<EmailFetcher>)
    ensures f.Some? <==> FetcherSettingsComplete(settings)
    ensures f.Some? ==> (fresh(f.value) && f.value.session == session && f.value.sent == settings.sent)
  {
    if FetcherSettingsComplete(settings) {
      var fetcher := new EmailFetcher(settings, session);
      return Some(fetcher);
    }
    return None;
  }

  /** A configuration that passes `validate_config` also passes the fetcher's constructor check. */
  lemma ValidConfigBuildsFetcher(c: Config)
    requires ValidateConfig(c)
    ensures FetcherSettingsComplete(c.mail)
  {
  }
}
