/**
 * An IMAP4rev1 session (RFC 3501) as `imaplib.IMAP4_SSL` presents it to the core:
 * the commands SELECT, SEARCH SINCE, FETCH, LOGIN and APPEND, each answered from a
 * model of the server's mailboxes. A reply is OK with its data, a tagged NO
 * (returned by imaplib, not raised), or an exception (a BAD answer, a command that
 * is illegal in the current state, a dropped connection), which imaplib raises.
 */
module Imap {
  import opened Wrappers
  import opened Text
  import opened Calendar
  import opened Mime

  datatype Reply<T> = Ok(value: T) | No | Raised

  /** A stored message: its internal date and what fetching it as RFC822 yields. */
  datatype StoredMail = StoredMail(internalDate: Date, fetch: Reply<Message>)

  /** A mailbox: its messages by sequence number (the first is number 1). */
  datatype Mailbox = Mailbox(mails: seq<StoredMail>, refusesSearch: bool)

  datatype ServerState = ServerState(
    mailboxes: map<string, Mailbox>,
    selected: Option<string>,  // the selected mailbox; None in the authenticated state
    alive: bool,               // false once the connection is gone: every command raises
    acceptsLogin: bool)

  datatype Command =
    | SelectCmd(mailbox: string)
    | SearchCmd(criterion: string)
    | FetchCmd(id: nat)
    | LoginCmd(user: string)
    | AppendCmd(mailbox: string)

  /** A message the server stored on APPEND, with its internal date. */
  datatype Appended = Appended(mailbox: string, message: Draft, internalDate: int)

  // ---- command arguments ----

  /**
   * imaplib encodes every command argument as ASCII (UTF8=ACCEPT is never enabled
   * here): an argument with any other character raises UnicodeEncodeError before
   * the command is sent.
   */
  predicate Ascii(s: string) {
    forall i :: 0 <= i < |s| ==> s[i] as int < 128
  }

  /** Quoting adds only ASCII characters. */
  lemma AsciiQuote(s: string)
    ensures Ascii(Quote(s)) <==> Ascii(s)
  {
    var q := Quote(s);
    assert forall i :: 0 <= i < |s| ==> q[i + 1] == s[i];
    if Ascii(s) {
      forall i | 0 <= i < |q| ensures q[i] as int < 128 {
        if 0 < i < |q| - 1 {
          assert q[i] == s[i - 1];
        }
      }
    }
  }

  predicate Quotable(s: string) {
    forall i :: 0 <= i < |s| ==> s[i] != '"' && s[i] != '\\'
  }

  /** `f'"{name}"'`: the core quotes every mailbox name and date it sends. */
  function Quote(s: string): string {
    "\"" + s + "\""
  }

  /** `f'"{name}"'` for a folder name that may be None (printed as "None"). */
  function FolderArg(name: Option<string>): string {
    Quote(name.GetOr("None"))
  }

  /** The server's reading of a quoted string without escapes. */
  function Unquote(arg: string): (r: Option<string>)
    ensures r.Some? ==> Quotable(r.value)
  {
    if |arg| >= 2 && arg[0] == '"' && arg[|arg| - 1] == '"' && Quotable(arg[1..|arg| - 1]) then
      Some(arg[1..|arg| - 1])
    else
      None
  }

  lemma UnquoteQuote(s: string)
    ensures Unquote(Quote(s)) == if Quotable(s) then Some(s) else None
  {
    assert Quote(s)[1..|Quote(s)| - 1] == s;
  }

  // ---- SEARCH SINCE ----

  /** `SINCE "<date-text>"`, the criterion `fetch_weekly_reports` sends. */
  function SinceCriterion(d: Date): string
    requires Valid(d)
  {
    "SINCE " + Quote(DateText(d))
  }

  /** The server's reading of a SINCE criterion. */
  function ParseSince(criterion: string): Option<Date> {
    if |criterion| >= 6 && criterion[..6] == "SINCE " then
      match Unquote(criterion[6..])
      case None => None
      case Some(text) => ParseDateText(text)
    else
      None
  }

  lemma DateTextQuotable(d: Date)
    requires Valid(d)
    ensures Quotable(DateText(d))
  {
    var year := Decimal(d.year);
    assert forall i :: 0 <= i < |year| ==> '0' <= year[i] <= '9';
  }

  /** The criterion the server receives names exactly the date the client meant. */
  lemma ParseSinceRoundTrip(d: Date)
    requires Valid(d)
    ensures ParseSince(SinceCriterion(d)) == Some(d)
  {
    var c := SinceCriterion(d);
    assert c[..6] == "SINCE " && c[6..] == Quote(DateText(d));
    DateTextQuotable(d);
    UnquoteQuote(DateText(d));
    ParseDateTextRoundTrip(d);
  }

  /** Calendar order of dates: `a` is `b` or a later day. */
  predicate OnOrAfter(a: Date, b: Date) {
    a.year > b.year || (a.year == b.year && (a.month > b.month || (a.month == b.month && a.day >= b.day)))
  }

  /** Sequence numbers, ascending, of the messages whose internal date is on or after `since`. */
  function IdsSince(mails: seq<StoredMail>, since: Date): seq<nat>
    decreases |mails|
  {
    if mails == [] then []
    else
      IdsSince(mails[..|mails| - 1], since) +
      (if OnOrAfter(mails[|mails| - 1].internalDate, since) then [|mails|] else [])
  }

  /** SEARCH SINCE finds exactly the messages dated on or after the day, in ascending order. */
  lemma {:induction false} IdsSinceExact(mails: seq<StoredMail>, since: Date)
    ensures forall id :: id in IdsSince(mails, since) <==>
      1 <= id <= |mails| && OnOrAfter(mails[id - 1].internalDate, since)
    ensures forall i, j :: 0 <= i < j < |IdsSince(mails, since)| ==>
      IdsSince(mails, since)[i] < IdsSince(mails, since)[j]
    ensures |IdsSince(mails, since)| <= |mails|
    decreases |mails|
  {
    if mails != [] {
      var front := mails[..|mails| - 1];
      IdsSinceExact(front, since);
      assert forall k :: 0 <= k < |front| ==> front[k] == mails[k];
      var f := IdsSince(front, since);
      forall i | 0 <= i < |f| ensures f[i] <= |front| {
        assert f[i] in f;
      }
    }
  }

  // ---- the server's answers ----

  function SelectReply(st: ServerState, arg: string): Reply<()> {
    if !st.alive || !Ascii(arg) then Raised
    else
      match Unquote(arg)
      case None => Raised
      case Some(name) => if name in st.mailboxes then Ok(()) else No
  }

  /**
   * What SELECT and APPEND answer to a quoted folder name that may be None: OK exactly
   * when the name is ASCII, has nothing to escape and names a mailbox; an exception
   * for a non-ASCII or unquotable name or a lost connection; NO otherwise.
   */
  lemma FolderReplies(st: ServerState, name: Option<string>)
    ensures var n := name.GetOr("None");
      && (SelectReply(st, FolderArg(name)).Ok? <==> st.alive && Ascii(n) && Quotable(n) && n in st.mailboxes)
      && (SelectReply(st, FolderArg(name)).Raised? <==> !st.alive || !Ascii(n) || !Quotable(n))
      && AppendReply(st, FolderArg(name)) == SelectReply(st, FolderArg(name))
  {
    AsciiQuote(name.GetOr("None"));
    UnquoteQuote(name.GetOr("None"));
  }

  /** A drafts folder named in Chinese cannot even be sent: imaplib raises. */
  lemma NonAsciiFolderRaises(st: ServerState)
    ensures SelectReply(st, FolderArg(Some("草稿箱"))).Raised?
    ensures AppendReply(st, FolderArg(Some("草稿箱"))).Raised?
  {
    var n := "草稿箱";
    assert !(n[0] as int < 128);
    FolderReplies(st, Some(n));
  }

  /** A successful SELECT selects; a refused one leaves no mailbox selected. */
  function AfterSelect(st: ServerState, arg: string): ServerState {
    match SelectReply(st, arg)
    case Ok(_) => st.(selected := Unquote(arg))
    case No => st.(selected := None)
    case Raised => st
  }

  /** The selected mailbox, when there is one the server knows. */
  function SelectedMailbox(st: ServerState): Option<Mailbox> {
    if st.selected.Some? && st.selected.value in st.mailboxes then Some(st.mailboxes[st.selected.value])
    else None
  }

  function SearchReply(st: ServerState, criterion: string): Reply<seq<nat>> {
    if !st.alive then Raised
    else
      match SelectedMailbox(st)
      case None => Raised  // SEARCH is illegal in the authenticated state
      case Some(mb) =>
        match ParseSince(criterion)
        case None => Raised
        case Some(since) => if mb.refusesSearch then No else Ok(IdsSince(mb.mails, since))
  }

  function FetchReply(st: ServerState, id: nat): Reply<Message> {
    if !st.alive then Raised
    else
      match SelectedMailbox(st)
      case None => Raised
      case Some(mb) => if 1 <= id <= |mb.mails| then mb.mails[id - 1].fetch else Raised
  }

  /** imaplib raises on any LOGIN answer other than OK, and on credentials it cannot encode. */
  function LoginReply(st: ServerState, user: string, password: string): Reply<()> {
    if st.alive && st.acceptsLogin && Ascii(user) && Ascii(password) then Ok(()) else Raised
  }

  /** After LOGIN: the authenticated state (nothing selected) on OK; unchanged when it raised. */
  function AfterLogin(st: ServerState, user: string, password: string): (r: ServerState)
    ensures r.mailboxes == st.mailboxes && r.alive == st.alive && r.acceptsLogin == st.acceptsLogin
    ensures r.selected == if LoginReply(st, user, password).Ok? then None else st.selected
  {
    if LoginReply(st, user, password).Ok? then st.(selected := None) else st
  }

  /** APPEND to a missing mailbox is answered NO [TRYCREATE], which imaplib returns. */
  function AppendReply(st: ServerState, arg: string): Reply<()> {
    if !st.alive || !Ascii(arg) then Raised
    else
      match Unquote(arg)
      case None => Raised
      case Some(name) => if name in st.mailboxes then Ok(()) else No
  }

  /**
   * One connection to the server, with the transcript of the commands the client
   * issued on it (including one that raised before reaching the server).
   */
  class Connection {
    var state: ServerState
    var commands: seq<Command>
    var appended: seq<Appended>

    constructor (st: ServerState)
      ensures state == st && commands == [] && appended == []
    {
      state := st;
      commands := [];
      appended := [];
    }

    method Select(arg: string) returns (r: Reply<()>)
      modifies this
      ensures r == SelectReply(old(state), arg) && state == AfterSelect(old(state), arg)
      ensures commands == old(commands) + [SelectCmd(arg)] && appended == old(appended)
    {
      r := SelectReply(state, arg);
      state := AfterSelect(state, arg);
      commands := commands + [SelectCmd(arg)];
    }

    method Search(criterion: string) returns (r: Reply<seq<nat>>)
      modifies this
      ensures r == SearchReply(state, criterion) && state == old(state)
      ensures commands == old(commands) + [SearchCmd(criterion)] && appended == old(appended)
    {
      r := SearchReply(state, criterion);
      commands := commands + [SearchCmd(criterion)];
    }

    method Fetch(id: nat) returns (r: Reply<Message>)
      modifies this
      ensures r == FetchReply(state, id) && state == old(state)
      ensures commands == old(commands) + [FetchCmd(id)] && appended == old(appended)
    {
      r := FetchReply(state, id);
      commands := commands + [FetchCmd(id)];
    }

    /** A successful LOGIN enters the authenticated state: no mailbox is selected. */
    method Login(user: string, password: string) returns (r: Reply<()>)
      modifies this
      ensures r == LoginReply(old(state), user, password) && state == AfterLogin(old(state), user, password)
      ensures commands == old(commands) + [LoginCmd(user)] && appended == old(appended)
    {
      r := LoginReply(state, user, password);
      state := AfterLogin(state, user, password);
      commands := commands + [LoginCmd(user)];
    }

    /** APPEND `message` to the mailbox quoted in `arg`, with the given internal date. */
    method Append(arg: string, internalDate: int, message: Draft) returns (r: Reply<()>)
      modifies this
      ensures r == AppendReply(old(state), arg) && state == old(state)
      ensures commands == old(commands) + [AppendCmd(arg)]
      ensures appended == old(appended) +
        (if r.Ok? then [Appended(Unquote(arg).value, message, internalDate)] else [])
    {
      r := AppendReply(state, arg);
      commands := commands + [AppendCmd(arg)];
      if r.Ok? {
        appended := appended + [Appended(Unquote(arg).value, message, internalDate)];
      }
    }
  }
}
