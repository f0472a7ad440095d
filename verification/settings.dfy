/**
 * The configuration record of `utils/config.py`: each value is what `os.getenv`
 * gave (None when unset), and the two checks made before any network I/O.
 */
module Settings {
  import opened Wrappers
  import opened Text

  datatype ImapSettings = ImapSettings(
    server: Option<string>, smtpServer: Option<string>, username: Option<string>,
    password: Option<string>, sent: Option<string>, drafts: Option<string>)

  datatype AiSettings = AiSettings(
    apiKey: Option<string>, apiUrl: Option<string>, model: Option<string>, systemPrompt: Option<string>)

  datatype ReportSettings = ReportSettings(
    titlePrefix: Option<string>, titleDateFormat: Option<string>,
    defaultTo: Option<string>, defaultCc: Option<string>)

  datatype Config = Config(mail: ImapSettings, ai: AiSettings, report: ReportSettings)

  /** `validate_config`: every mailbox credential and the API key are set and non-empty. */
  function ValidateConfig(c: Config): bool {
    if !(Truthy(c.mail.server) && Truthy(c.mail.smtpServer) && Truthy(c.mail.username) && Truthy(c.mail.password)) then
      false
    else if !Truthy(c.ai.apiKey) then
      false
    else
      true
  }

  /** The keys `get_missing_config` checks in `imap_config`, in order. */
  const RequiredImap: seq<string> := ["server", "smtp_server", "username", "password"]

  /** `imap_config[key]` for the keys the dictionary has. */
  function ImapValue(s: ImapSettings, key: string): Option<string>
    requires key in RequiredImap
  {
    if key == "server" then s.server
    else if key == "smtp_server" then s.smtpServer
    else if key == "username" then s.username
    else s.password
  }

  /** The missing-item names, spelled out: one per unset item, in the order checked. */
  function MissingConfig(c: Config): seq<string> {
    (if Truthy(c.mail.server) then [] else ["IMAP_SERVER"]) +
    (if Truthy(c.mail.smtpServer) then [] else ["IMAP_SMTP_SERVER"]) +
    (if Truthy(c.mail.username) then [] else ["IMAP_USERNAME"]) +
    (if Truthy(c.mail.password) then [] else ["IMAP_PASSWORD"]) +
    (if Truthy(c.ai.apiKey) then [] else ["AI_API_KEY"])
  }

  /** The names the loop over `keys` appends: `"IMAP_" + key.upper()` for each unset key. */
  function MissingImap(s: ImapSettings, keys: seq<string>): seq<string>
    requires forall k :: k in keys ==> k in RequiredImap
    decreases |keys|
  {
    if keys == [] then []
    else
      var last := keys[|keys| - 1];
      MissingImap(s, keys[..|keys| - 1]) +
      (if Truthy(ImapValue(s, last)) then [] else ["IMAP_" + Upper(last)])
  }

  /** `get_missing_config`. */
  method GetMissingConfig(c: Config) returns (missing: seq<string>)
    ensures missing == MissingConfig(c)
  {
    missing := [];
    var i := 0;
    while i < |RequiredImap|
      invariant 0 <= i <= |RequiredImap|
      invariant missing == MissingImap(c.mail, RequiredImap[..i])
    {
      var key := RequiredImap[i];
      assert RequiredImap[..i + 1][..i] == RequiredImap[..i];
      if !Truthy(ImapValue(c.mail, key)) {
        missing := missing + ["IMAP_" + Upper(key)];
      }
      i := i + 1;
    }
    if !Truthy(c.ai.apiKey) {
      missing := missing + ["AI_API_KEY"];
    }
    assert RequiredImap[..4] == RequiredImap;
    MissingImapRequired(c.mail);
  }

  /** Over the four required keys the loop's names are the spelled-out ones. */
  lemma MissingImapRequired(s: ImapSettings)
    ensures MissingImap(s, RequiredImap) ==
      (if Truthy(s.server) then [] else ["IMAP_SERVER"]) +
      (if Truthy(s.smtpServer) then [] else ["IMAP_SMTP_SERVER"]) +
      (if Truthy(s.username) then [] else ["IMAP_USERNAME"]) +
      (if Truthy(s.password) then [] else ["IMAP_PASSWORD"])
  {
    UpperKeys();
    var a := if Truthy(s.server) then [] else ["IMAP_SERVER"];
    var b := if Truthy(s.smtpServer) then [] else ["IMAP_SMTP_SERVER"];
    var c := if Truthy(s.username) then [] else ["IMAP_USERNAME"];
    assert MissingImap(s, RequiredImap[..0]) == [];
    MissingImapStep(s, 1, s.server, "IMAP_SERVER", []);
    MissingImapStep(s, 2, s.smtpServer, "IMAP_SMTP_SERVER", a);
    MissingImapStep(s, 3, s.username, "IMAP_USERNAME", a + b);
    MissingImapStep(s, 4, s.password, "IMAP_PASSWORD", a + b + c);
    assert RequiredImap[..4] == RequiredImap;
  }

  /** One more required key extends the names by that key's entry. */
  lemma MissingImapStep(s: ImapSettings, i: nat, value: Option<string>, name: string, before: seq<string>)
    requires 1 <= i <= |RequiredImap|
    requires MissingImap(s, RequiredImap[..i - 1]) == before
    requires ImapValue(s, RequiredImap[i - 1]) == value
    requires "IMAP_" + Upper(RequiredImap[i - 1]) == name
    ensures MissingImap(s, RequiredImap[..i]) == before + if Truthy(value) then [] else [name]
  {
    assert RequiredImap[..i][..i - 1] == RequiredImap[..i - 1];
  }

  lemma UpperKeys()
    ensures "IMAP_" + Upper("server") == "IMAP_SERVER"
    ensures "IMAP_" + Upper("smtp_server") == "IMAP_SMTP_SERVER"
    ensures "IMAP_" + Upper("username") == "IMAP_USERNAME"
    ensures "IMAP_" + Upper("password") == "IMAP_PASSWORD"
  {
    UpperName("server", "SERVER", "IMAP_SERVER");
    UpperName("smtp_server", "SMTP_SERVER", "IMAP_SMTP_SERVER");
    UpperName("username", "USERNAME", "IMAP_USERNAME");
    UpperName("password", "PASSWORD", "IMAP_PASSWORD");
  }

  /** The upper-cased key, prefixed, is the expected name. */
  lemma UpperName(key: string, upper: string, name: string)
    requires |key| == |upper| && forall i :: 0 <= i < |key| ==> UpperChar(key[i]) == upper[i]
    requires name == "IMAP_" + upper
    ensures "IMAP_" + Upper(key) == name
  {
    assert Upper(key) == upper;
  }

  /** The configuration is valid exactly when nothing is reported missing. */
  lemma ValidIffNothingMissing(c: Config)
    ensures ValidateConfig(c) <==> MissingConfig(c) == []
  {
  }

  /** At most five names, none of them twice. */
  lemma MissingConfigDistinct(c: Config)
    ensures |MissingConfig(c)| <= 5
    ensures forall i, j :: 0 <= i < j < |MissingConfig(c)| ==> MissingConfig(c)[i] != MissingConfig(c)[j]
  {
  }

  /** Items neither check reads (folders, API URL, model, prompt, report items) never matter. */
  lemma UncheckedItemsIrrelevant(c1: Config, c2: Config)
    requires c1.mail.server == c2.mail.server && c1.mail.smtpServer == c2.mail.smtpServer
    requires c1.mail.username == c2.mail.username && c1.mail.password == c2.mail.password
    requires c1.ai.apiKey == c2.ai.apiKey
    ensures ValidateConfig(c1) == ValidateConfig(c2)
    ensures MissingConfig(c1) == MissingConfig(c2)
  {
  }
}
