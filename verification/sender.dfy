/**
 * `EmailSender` of `utils/email_sender.py` and its older copy in
 * `auto_weekly_report.py`: construction, `create_message` (built step by step on a
 * `MIMEMultipart`) and `save_to_drafts` (log in, APPEND to the drafts folder, report
 * a flag). Each `save_to_drafts` call opens a fresh connection; it is passed in.
 */
module Sender {
  import opened Wrappers
  import opened Mime
  import opened Imap
  import opened Settings

  /** The headers `MIMEMultipart()` sets before any assignment, in this order. */
  const MultipartHeaders: seq<Header> := [Header("Content-Type", "multipart/mixed"), Header("MIME-Version", "1.0")]

  /** A `MIMEMultipart` under construction: header assignments append, `attach` appends. */
  class MimeMultipart {
    var headers: seq<Header>
    var parts: seq<Part>

    /** `MIMEMultipart()`: the multipart/mixed type and the MIME version, and no parts yet. */
    constructor ()
      ensures headers == MultipartHeaders && parts == []
    {
      headers := MultipartHeaders;
      parts := [];
    }

    /** `msg[name] = value` (adds a header; it does not replace one). */
    method SetHeader(name: string, value: string)
      modifies this
      ensures headers == old(headers) + [Header(name, value)] && parts == old(parts)
    {
      headers := headers + [Header(name, value)];
    }

    method Attach(p: Part)
      modifies this
      ensures parts == old(parts) + [p] && headers == old(headers)
    {
      parts := parts + [p];
    }

    function AsDraft(): Draft
      reads this
    {
      Draft(headers, parts)
    }
  }

  /** The current `create_message` (HTML body and embedded image) or the older one (plain UTF-8 text only). */
  datatype BodyStyle = HtmlWithImage | PlainUtf8

  /** Reading `template/mengxiang.PNG`: absent, failing, or its bytes. */
  datatype ImageFile = Missing | Unreadable | Present(data: Bytes)

  const ImageContentId := "<image1>"

  /** From, then To and Cc when given, then Subject. */
  function AddressHeaders(from: string, subject: string, to: Option<string>, cc: Option<string>): seq<Header> {
    [Header("From", from)] +
    (if Truthy(to) then [Header("To", to.value)] else []) +
    (if Truthy(cc) then [Header("Cc", cc.value)] else []) +
    [Header("Subject", subject)]
  }

  /**
   * The embedded image, when the file was read and `MIMEImage` could tell its subtype
   * (`imageSubtype` is None where it raises TypeError).
   */
  function ImageParts(image: ImageFile, imageSubtype: Bytes -> Option<string>): seq<Part> {
    if image.Present? && imageSubtype(image.data).Some? then
      [ImagePart(image.data, imageSubtype(image.data).value, [Header("Content-ID", ImageContentId)])]
    else
      []
  }

  /** The message `create_message` returns: the multipart headers, then the address headers. */
  function DraftFor(style: BodyStyle, from: string, subject: string, content: string,
                    to: Option<string>, cc: Option<string>,
                    image: ImageFile, imageSubtype: Bytes -> Option<string>): Draft
  {
    match style
    case HtmlWithImage =>
      Draft(MultipartHeaders + AddressHeaders(from, subject, to, cc),
            [TextPart(content, "html", None)] + ImageParts(image, imageSubtype))
    case PlainUtf8 =>
      Draft(MultipartHeaders + AddressHeaders(from, subject, to, cc), [TextPart(content, "plain", Some("utf-8"))])
  }

  /** The values of the headers called `name`, in order. */
  function HeaderValues(hs: seq<Header>, name: string): seq<string> {
    if hs == [] then []
    else (if hs[0].name == name then [hs[0].value] else []) + HeaderValues(hs[1..], name)
  }

  lemma {:induction false} HeaderValuesAppend(a: seq<Header>, b: seq<Header>, name: string)
    ensures HeaderValues(a + b, name) == HeaderValues(a, name) + HeaderValues(b, name)
    decreases |a|
  {
    if a != [] {
      assert (a + b)[0] == a[0];
      assert (a + b)[1..] == a[1..] + b;
      HeaderValuesAppend(a[1..], b, name);
      var head := if a[0].name == name then [a[0].value] else [];
      assert HeaderValues(a + b, name) == head + (HeaderValues(a[1..], name) + HeaderValues(b, name));
      assert HeaderValues(a, name) == head + HeaderValues(a[1..], name);
      assert head + (HeaderValues(a[1..], name) + HeaderValues(b, name)) ==
        (head + HeaderValues(a[1..], name)) + HeaderValues(b, name);
    } else {
      assert a + b == b;
    }
  }

  /** A single header contributes its value exactly when it has the name asked for. */
  lemma HeaderValuesSingle(h: Header, name: string)
    ensures HeaderValues([h], name) == if h.name == name then [h.value] else []
  {
    assert [h][1..] == [];
  }

  /** The values of one header name, collected over the four groups of AddressHeaders. */
  lemma AddressHeaderValues(from: string, subject: string, to: Option<string>, cc: Option<string>, name: string)
    ensures HeaderValues(AddressHeaders(from, subject, to, cc), name) ==
      (if name == "From" then [from] else []) +
      (if Truthy(to) && name == "To" then [to.value] else []) +
      (if Truthy(cc) && name == "Cc" then [cc.value] else []) +
      (if name == "Subject" then [subject] else [])
  {
    var toH: seq<Header> := if Truthy(to) then [Header("To", to.value)] else [];
    var ccH: seq<Header> := if Truthy(cc) then [Header("Cc", cc.value)] else [];
    HeaderValuesAppend([Header("From", from)] + toH + ccH, [Header("Subject", subject)], name);
    HeaderValuesAppend([Header("From", from)] + toH, ccH, name);
    HeaderValuesAppend([Header("From", from)], toH, name);
    HeaderValuesSingle(Header("From", from), name);
    HeaderValuesSingle(Header("Subject", subject), name);
    if Truthy(to) {
      HeaderValuesSingle(Header("To", to.value), name);
    }
    if Truthy(cc) {
      HeaderValuesSingle(Header("Cc", cc.value), name);
    }
  }

  /** The values of one header name after `MIMEMultipart()`'s two headers are followed by `a`. */
  lemma MultipartHeaderValues(a: seq<Header>, name: string)
    ensures HeaderValues(MultipartHeaders + a, name) ==
      (if name == "Content-Type" then ["multipart/mixed"] else []) +
      (if name == "MIME-Version" then ["1.0"] else []) +
      HeaderValues(a, name)
  {
    var h0, h1 := Header("Content-Type", "multipart/mixed"), Header("MIME-Version", "1.0");
    assert MultipartHeaders + a == [h0] + ([h1] + a);
    HeaderValuesCons(h0, [h1] + a, name);
    HeaderValuesCons(h1, a, name);
  }

  /** A header in front adds its value exactly when it has the name asked for. */
  lemma HeaderValuesCons(h: Header, rest: seq<Header>, name: string)
    ensures HeaderValues([h] + rest, name) == (if h.name == name then [h.value] else []) + HeaderValues(rest, name)
  {
    assert ([h] + rest)[1..] == rest;
  }

  /** The address headers alone: one From and one Subject, To and Cc when given, no multipart header. */
  lemma AddressHeaderRules(from: string, subject: string, to: Option<string>, cc: Option<string>)
    ensures var a := AddressHeaders(from, subject, to, cc);
      && HeaderValues(a, "Content-Type") == []
      && HeaderValues(a, "MIME-Version") == []
      && HeaderValues(a, "From") == [from]
      && HeaderValues(a, "Subject") == [subject]
      && HeaderValues(a, "To") == (if Truthy(to) then [to.value] else [])
      && HeaderValues(a, "Cc") == (if Truthy(cc) then [cc.value] else [])
  {
    AddressHeaderValues(from, subject, to, cc, "Content-Type");
    AddressHeaderValues(from, subject, to, cc, "MIME-Version");
    AddressHeaderValues(from, subject, to, cc, "From");
    AddressHeaderValues(from, subject, to, cc, "Subject");
    AddressHeaderValues(from, subject, to, cc, "To");
    AddressHeaderValues(from, subject, to, cc, "Cc");
  }

  /** After the two multipart headers come only address headers. */
  lemma DraftHeaderNames(from: string, subject: string, to: Option<string>, cc: Option<string>)
    ensures var hs := MultipartHeaders + AddressHeaders(from, subject, to, cc);
      && |hs| >= 2 && hs[..2] == MultipartHeaders
      && (forall k :: 2 <= k < |hs| ==> hs[k].name in {"From", "To", "Cc", "Subject"})
  {
    var a := AddressHeaders(from, subject, to, cc);
    var hs := MultipartHeaders + a;
    assert hs[..2] == MultipartHeaders;
    assert forall k :: 0 <= k < |a| ==> a[k].name in {"From", "To", "Cc", "Subject"};
    forall k | 2 <= k < |hs| ensures hs[k].name in {"From", "To", "Cc", "Subject"} {
      assert hs[k] == a[k - 2];
    }
  }

  /**
   * Header rules of `create_message`: the Content-Type multipart/mixed and MIME-Version
   * 1.0 that `MIMEMultipart()` sets come first; after them one From (the username), a
   * To only when `to` is non-empty, a Cc only when `cc` is non-empty, and one Subject;
   * there are no other headers.
   */
  lemma DraftHeaderRules(style: BodyStyle, from: string, subject: string, content: string,
                         to: Option<string>, cc: Option<string>,
                         image: ImageFile, imageSubtype: Bytes -> Option<string>)
    ensures var hs := DraftFor(style, from, subject, content, to, cc, image, imageSubtype).headers;
      && |hs| >= 2 && hs[..2] == MultipartHeaders
      && HeaderValues(hs, "Content-Type") == ["multipart/mixed"]
      && HeaderValues(hs, "MIME-Version") == ["1.0"]
      && HeaderValues(hs, "From") == [from]
      && HeaderValues(hs, "Subject") == [subject]
      && HeaderValues(hs, "To") == (if Truthy(to) then [to.value] else [])
      && HeaderValues(hs, "Cc") == (if Truthy(cc) then [cc.value] else [])
      && (forall k :: 2 <= k < |hs| ==> hs[k].name in {"From", "To", "Cc", "Subject"})
  {
    var hs := MultipartHeaders + AddressHeaders(from, subject, to, cc);
    assert DraftFor(style, from, subject, content, to, cc, image, imageSubtype).headers == hs;
    DraftHeaderNames(from, subject, to, cc);
    var a := AddressHeaders(from, subject, to, cc);
    AddressHeaderRules(from, subject, to, cc);
    MultipartHeaderValues(a, "Content-Type");
    MultipartHeaderValues(a, "MIME-Version");
    MultipartHeaderValues(a, "From");
    MultipartHeaderValues(a, "Subject");
    MultipartHeaderValues(a, "To");
    MultipartHeaderValues(a, "Cc");
  }

  /**
   * Part rules: the content is the first part (HTML, or plain UTF-8 for the older copy);
   * the current copy adds the image with Content-ID <image1> exactly when the file was
   * read and its type recognised; there are no other parts.
   */
  lemma DraftPartRules(style: BodyStyle, from: string, subject: string, content: string,
                       to: Option<string>, cc: Option<string>,
                       image: ImageFile, imageSubtype: Bytes -> Option<string>)
    ensures var ps := DraftFor(style, from, subject, content, to, cc, image, imageSubtype).parts;
      && 1 <= |ps| <= 2
      && ps[0] == (if style.HtmlWithImage? then TextPart(content, "html", None) else TextPart(content, "plain", Some("utf-8")))
      && (|ps| == 2 <==> style.HtmlWithImage? && image.Present? && imageSubtype(image.data).Some?)
      && (|ps| == 2 ==> ps[1].ImagePart? && ps[1].data == image.data &&
                        ps[1].extraHeaders == [Header("Content-ID", "<image1>")])
  {
  }

  // ---- saving a draft ----

  /**
   * What the fresh connection answers to LOGIN with the credentials, then APPEND of
   * the drafts folder; Raised when the login raised.
   */
  function AppendOutcome(st: ServerState, user: string, password: string, drafts: Option<string>): Reply<()> {
    if LoginReply(st, user, password).Raised? then Raised else AppendReply(st, FolderArg(drafts))
  }

  /** `save_to_drafts` as written: True unless something raised, so a NO reply counts as saved. */
  predicate SavedAsWritten(st: ServerState, user: string, password: string, drafts: Option<string>) {
    !AppendOutcome(st, user, password, drafts).Raised?
  }

  /** The intended flag: True exactly when the server accepted the APPEND. */
  predicate DraftSaved(st: ServerState, user: string, password: string, drafts: Option<string>) {
    AppendOutcome(st, user, password, drafts).Ok?
  }

  /**
   * The corrected flag holds exactly when the server is up, accepts the login, the
   * credentials and the folder name can be sent as ASCII, and the folder exists.
   */
  lemma DraftSavedIff(st: ServerState, user: string, password: string, drafts: Option<string>)
    ensures var folder := drafts.GetOr("None");
      DraftSaved(st, user, password, drafts) <==>
        st.alive && st.acceptsLogin && Ascii(user) && Ascii(password) &&
        Ascii(folder) && Quotable(folder) && folder in st.mailboxes
  {
    FolderReplies(st, drafts);
  }

  /** The as-written flag also holds when the folder is refused: it is the corrected flag or a NO. */
  lemma SavedAsWrittenIff(st: ServerState, user: string, password: string, drafts: Option<string>)
    ensures SavedAsWritten(st, user, password, drafts) <==>
      DraftSaved(st, user, password, drafts) || AppendOutcome(st, user, password, drafts).No?
  {
  }

  /** A live server without a "Drafts" folder answers NO [TRYCREATE]; the as-written flag is still True. */
  lemma MissingFolderReportedAsSaved()
    ensures var st := ServerState(map[], None, true, true);
      SavedAsWritten(st, "me", "secret", Some("Drafts")) && !DraftSaved(st, "me", "secret", Some("Drafts"))
  {
    var st := ServerState(map[], None, true, true);
    assert Ascii("me") && Ascii("secret") && Ascii("Drafts") && Quotable("Drafts");
    FolderReplies(st, Some("Drafts"));
    assert AppendOutcome(st, "me", "secret", Some("Drafts")) == No;
  }

  predicate SenderSettingsComplete(s: ImapSettings) {
    Truthy(s.smtpServer) && Truthy(s.username) && Truthy(s.password)
  }

  /** A configuration that passes `validate_config` also passes the sender's constructor check. */
  lemma ValidConfigBuildsSender(c: Config)
    requires ValidateConfig(c)
    ensures SenderSettingsComplete(c.mail)
  {
  }

  class EmailSender {
    const smtpServer: string
    const username: string
    const password: string
    const drafts: Option<string>
    const imapServer: Option<string>
    const style: BodyStyle

    /** `EmailSender(config)` once its check passed; see NewEmailSender for the ValueError. */
    constructor (s: ImapSettings, style: BodyStyle)
      requires SenderSettingsComplete(s)
      ensures Some(smtpServer) == s.smtpServer && Some(username) == s.username && Some(password) == s.password
      ensures drafts == s.drafts && imapServer == s.server && this.style == style
    {
      smtpServer := s.smtpServer.value;
      username := s.username.value;
      password := s.password.value;
      drafts := s.drafts;
      imapServer := s.server;
      this.style := style;
    }

    /** `create_message`: never fails; a missing or unusable image only drops the image part. */
    method CreateMessage(subject: string, content: string, to: Option<string>, cc: Option<string>,
                         image: ImageFile, imageSubtype: Bytes -> Option<string>)
      returns (msg: MimeMultipart)
      ensures fresh(msg)
      ensures msg.AsDraft() == DraftFor(style, username, subject, content, to, cc, image, imageSubtype)
    {
      msg := new MimeMultipart();
      SetAddressHeaders(msg, subject, to, cc);
      if style.HtmlWithImage? {
        msg.Attach(TextPart(content, "html", None));
        AttachImage(msg, image, imageSubtype);
      } else {
        msg.Attach(TextPart(content, "plain", Some("utf-8")));
      }
    }

    method SetAddressHeaders(msg: MimeMultipart, subject: string, to: Option<string>, cc: Option<string>)
      modifies msg
      ensures msg.headers == old(msg.headers) + AddressHeaders(username, subject, to, cc)
      ensures msg.parts == old(msg.parts)
    {
      msg.SetHeader("From", username);
      if Truthy(to) {
        msg.SetHeader("To", to.value);
      }
      if Truthy(cc) {
        msg.SetHeader("Cc", cc.value);
      }
      msg.SetHeader("Subject", subject);
    }

    /** The `try` around the image: any failure leaves the message as it was. */
    method AttachImage(msg: MimeMultipart, image: ImageFile, imageSubtype: Bytes -> Option<string>)
      modifies msg
      ensures msg.parts == old(msg.parts) + ImageParts(image, imageSubtype)
      ensures msg.headers == old(msg.headers)
    {
      if image.Present? {
        var subtype := imageSubtype(image.data);
        if subtype.Some? {
          msg.Attach(ImagePart(image.data, subtype.value, [Header("Content-ID", ImageContentId)]));
        }
        // otherwise MIMEImage raised TypeError: logged, and the image is dropped
      }
      // Missing (FileNotFoundError) and Unreadable (any other error) are logged and dropped
    }

    /** `_save_to_drafts_folder`: log in, then APPEND with no flags at the given UTC time. */
    method AppendToDrafts(conn: Connection, draft: Draft, nowUtc: int) returns (r: Reply<()>)
      modifies conn
      ensures r == AppendOutcome(old(conn.state), username, password, drafts)
      ensures conn.state == AfterLogin(old(conn.state), username, password)
      ensures conn.appended == old(conn.appended) +
        (if r.Ok? then [Appended(drafts.GetOr("None"), draft, nowUtc)] else [])
    {
      var login := conn.Login(username, password);
      if login.Raised? {
        return Raised;
      }
      r := conn.Append(FolderArg(drafts), nowUtc, draft);
      if r.Ok? {
        UnquoteQuote(drafts.GetOr("None"));
      }
    }

    /** `save_to_drafts` as written: the APPEND status is ignored. */
    method SaveToDraftsAsWritten(conn: Connection, subject: string, content: string,
                                 to: Option<string>, cc: Option<string>,
                                 image: ImageFile, imageSubtype: Bytes -> Option<string>, nowUtc: int)
      returns (ok: bool)
      modifies conn
      ensures ok == SavedAsWritten(old(conn.state), username, password, drafts)
      ensures conn.appended == old(conn.appended) +
        (if DraftSaved(old(conn.state), username, password, drafts)
         then [Appended(drafts.GetOr("None"), DraftFor(style, username, subject, content, to, cc, image, imageSubtype), nowUtc)]
         else [])
    {
      var msg := CreateMessage(subject, content, to, cc, image, imageSubtype);
      var r := AppendToDrafts(conn, msg.AsDraft(), nowUtc);
      ok := !r.Raised?;
    }

    /** `save_to_drafts` with the APPEND status checked: True exactly when the draft was stored. */
    method SaveToDrafts(conn: Connection, subject: string, content: string,
                        to: Option<string>, cc: Option<string>,
                        image: ImageFile, imageSubtype: Bytes -> Option<string>, nowUtc: int)
      returns (ok: bool)
      modifies conn
      ensures ok == DraftSaved(old(conn.state), username, password, drafts)
      ensures ok <==> |conn.appended| == |old(conn.appended)| + 1
      ensures ok ==> (conn.appended == old(conn.appended) +
        [Appended(drafts.GetOr("None"), DraftFor(style, username, subject, content, to, cc, image, imageSubtype), nowUtc)])
      ensures !ok ==> conn.appended == old(conn.appended)
    {
      var msg := CreateMessage(subject, content, to, cc, image, imageSubtype);
      var r := AppendToDrafts(conn, msg.AsDraft(), nowUtc);
      ok := r.Ok?;
    }
  }

  /** `EmailSender(config)`: raises ValueError (here None) unless smtp_server, username and password are all set. */
  method NewEmailSender(s: ImapSettings, style: BodyStyle) returns (r: Option<EmailSender>)
    ensures r.Some? <==> SenderSettingsComplete(s)
    ensures r.Some? ==> (fresh(r.value) && Some(r.value.username) == s.username &&
                         r.value.drafts == s.drafts && r.value.style == style)
  {
    if SenderSettingsComplete(s) {
      var sender := new EmailSender(s, style);
      return Some(sender);
    }
    return None;
  }
}
