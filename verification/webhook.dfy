/**
  The string decisions of the Telegram webhook (webhook/app.py): command
  normalisation, chat authorisation, the missing-environment report, the routing of
  callback data, and the checks `dispatch_workflow` and `trigger_direct_feed` make
  before any network call. Environment values are parameters.
 */
module Webhook {
  import opened Wrappers
  import opened Text

  const TELEGRAM_BOT_TOKEN: string := "TELEGRAM_BOT_TOKEN"
  const GH_DISPATCH_TOKEN: string := "GH_DISPATCH_TOKEN"
  const UNKNOWN_COMMAND: string := "Неизвестная команда"
  const NO_ACCESS: string := "Нет доступа"
  const ENV_MISSING_PREFIX: string := "Не заданы переменные окружения: "

  /** The keys of FEEDS (GitHub workflows) and of DIRECT_FEEDS (direct generation URLs). */
  const FEED_KEYS: set<string> := {"maudau", "epicenter"}
  const DIRECT_FEED_KEYS: set<string> := {"hotline", "rozetka_direct"}

  /** The commands that answer with the control keyboard. */
  const CONTROL_COMMANDS: set<string> := {"/start", "/feeds", "/update", "start", "feeds", "update"}

  /** The leading run of non-whitespace characters: `s.split()[0]` for a string that does not start with whitespace. */
  function FirstToken(s: string): (r: string)
    ensures |r| <= |s| && r == s[..|r|]
    ensures forall i :: 0 <= i < |r| ==> !IsSpace(r[i])
    ensures |r| < |s| ==> IsSpace(s[|r|])
  {
    if s == [] || IsSpace(s[0]) then [] else [s[0]] + FirstToken(s[1..])
  }

  /** A string trims to "" exactly when every character is whitespace. */
  lemma TrimEmpty(s: string)
    ensures Trim(s) == [] <==> forall i :: 0 <= i < |s| ==> IsSpace(s[i])
  {
    var u := TrimStart(s);
    TrimStartSuffix(s);
    TrimEndPrefix(u);
    if Trim(s) == [] {
      assert |u| == 0;
    } else {
      var c := Trim(s)[0];
      assert c == u[0] == s[|s| - |u|];
    }
  }

  /**
    `normalize_cmd`: lower-cased and trimmed, then the first whitespace-separated token; for
    a slash command the token is cut at its first "@" (the bot-name suffix).
   */
  function NormalizeCmd(text: string): (r: string)
  {
    CommandToken(Trim(CaseFold(text)))
  }

  /** The command word of trimmed, lower-cased text. */
  function CommandToken(cmd: string): string {
    if |cmd| > 0 && cmd[0] == '/' then
      var token := FirstToken(cmd);
      token[..IndexOf(token, '@')]
    else
      FirstToken(cmd)
  }

  /**
    The command word is the longest prefix of the text that has no whitespace and, for a
    slash command, no "@": so "/start@Bot x" gives "/start". A slash command keeps its slash.
   */
  lemma CommandTokenShape(cmd: string)
    ensures var r := CommandToken(cmd);
            var slash := |cmd| > 0 && cmd[0] == '/';
            && r == cmd[..|r|]
            && (forall i :: 0 <= i < |r| ==> !IsSpace(r[i]))
            && (slash ==> '@' !in r && r[0] == '/')
            && (|r| < |cmd| ==> IsSpace(cmd[|r|]) || (slash && cmd[|r|] == '@'))
  {
    if cmd != [] {
      var token := FirstToken(cmd);
      if cmd[0] == '/' {
        var k := IndexOf(token, '@');
        assert token[0] == '/';
        if k < |token| {
          assert cmd[k] == token[k];
        }
      }
    }
  }

  /**
    The normalised command is the longest prefix of the trimmed, lower-cased text that has
    no whitespace and, for a slash command, no "@".
   */
  lemma NormalizeCmdShape(text: string)
    ensures var cmd := Trim(CaseFold(text));
            var r := NormalizeCmd(text);
            var slash := |cmd| > 0 && cmd[0] == '/';
            && r == cmd[..|r|]
            && (forall i :: 0 <= i < |r| ==> !IsSpace(r[i]))
            && (slash ==> '@' !in r && r[0] == '/')
            && (|r| < |cmd| ==> IsSpace(cmd[|r|]) || (slash && cmd[|r|] == '@'))
  {
    CommandTokenShape(Trim(CaseFold(text)));
  }

  /** The normalised command is "" exactly for blank text. */
  lemma NormalizeCmdBlank(text: string)
    ensures NormalizeCmd(text) == "" <==> forall i :: 0 <= i < |text| ==> IsSpace(text[i])
  {
    var cmd := Trim(CaseFold(text));
    BlankFolded(text);
    if cmd != [] {
      assert !IsSpace(cmd[0]);
      assert FirstToken(cmd) != [];
    }
  }

  /** The trimmed, lower-cased text is empty exactly when the text is blank. */
  lemma BlankFolded(text: string)
    ensures Trim(CaseFold(text)) == "" <==> forall i :: 0 <= i < |text| ==> IsSpace(text[i])
  {
    var folded := CaseFold(text);
    TrimEmpty(folded);
    forall i | 0 <= i < |text| ensures IsSpace(folded[i]) <==> IsSpace(text[i]) {
      FoldCharFacts(text[i]);
    }
  }

  /** The commands that bring up the feed controls. */
  predicate IsControlCommand(text: string) {
    NormalizeCmd(text) in CONTROL_COMMANDS
  }

  /** `is_allowed_chat`: every chat when the configured id is blank, otherwise exactly the configured (trimmed) id. */
  function IsAllowedChat(allowedChatId: string, chatId: string): (r: bool)
    ensures Trim(allowedChatId) == "" ==> r
    ensures Trim(allowedChatId) != "" ==> (r <==> chatId == Trim(allowedChatId))
  {
    var allowed := Trim(allowedChatId);
    allowed == "" || chatId == allowed
  }

  /** `missing_env`: the names of the empty tokens, the bot token first. */
  function MissingEnv(tgToken: string, ghToken: string): (r: seq<string>)
    ensures TELEGRAM_BOT_TOKEN in r <==> tgToken == ""
    ensures GH_DISPATCH_TOKEN in r <==> ghToken == ""
    ensures |r| == (if tgToken == "" then 1 else 0) + (if ghToken == "" then 1 else 0)
    ensures r != [] && tgToken == "" ==> r[0] == TELEGRAM_BOT_TOKEN
  {
    (if tgToken == "" then [TELEGRAM_BOT_TOKEN] else []) + (if ghToken == "" then [GH_DISPATCH_TOKEN] else [])
  }

  /** `", ".join(items)`. */
  function Join(items: seq<string>, sep: string): string {
    if items == [] then "" else if |items| == 1 then items[0] else items[0] + sep + Join(items[1..], sep)
  }

  /**
    The checks `dispatch_workflow` makes before calling GitHub: `Some(message)` when it
    returns `(False, message)` without a request, `None` when it goes on to the request.
   */
  function DispatchRefusal(tgToken: string, ghToken: string, feedKey: string): (r: Option<string>)
    ensures r == None <==> MissingEnv(tgToken, ghToken) == [] && feedKey in FEED_KEYS
    ensures MissingEnv(tgToken, ghToken) != [] ==> r == Some(ENV_MISSING_PREFIX + Join(MissingEnv(tgToken, ghToken), ", "))
    ensures MissingEnv(tgToken, ghToken) == [] && feedKey !in FEED_KEYS ==> r == Some(UNKNOWN_COMMAND)
  {
    var missing := MissingEnv(tgToken, ghToken);
    if missing != [] then Some(ENV_MISSING_PREFIX + Join(missing, ", "))
    else if feedKey !in FEED_KEYS then Some(UNKNOWN_COMMAND)
    else None
  }

  /** The check `trigger_direct_feed` makes before its request: an unknown key is refused as an unknown command. */
  function DirectRefusal(feedKey: string): (r: Option<string>)
    ensures r == None <==> feedKey in DIRECT_FEED_KEYS
    ensures r != None ==> r == Some(UNKNOWN_COMMAND)
  {
    if feedKey in DIRECT_FEED_KEYS then None else Some(UNKNOWN_COMMAND)
  }

  /**
    The secret check of `telegram_webhook`: with no secret configured every request is
    accepted; otherwise exactly those whose secret-token header equals it.
   */
  function SecretAccepted(secret: string, header: Option<string>): (r: bool)
    ensures secret == "" ==> r
    ensures secret != "" ==> (r <==> header == Some(secret))
  {
    secret == "" || header == Some(secret)
  }

  /** The `/health` answer: "ok", or "degraded" with the missing names joined by ", ". */
  datatype Health = Ok | Degraded(missing: string)

  function HealthOf(tgToken: string, ghToken: string): (r: Health)
    ensures r == Ok <==> tgToken != "" && ghToken != ""
    ensures r.Degraded? ==> r.missing == Join(MissingEnv(tgToken, ghToken), ", ")
  {
    var missing := MissingEnv(tgToken, ghToken);
    if missing != [] then Degraded(Join(missing, ", ")) else Ok
  }

  /** What the webhook does with a message. */
  datatype MessageAction = Silent | Deny(text: string) | Controls

  /**
    The message branch of `telegram_webhook`: nothing without a chat; a refusal naming the
    chat for a chat not allowed; the control keyboard for a control command; nothing for
    any other text. The text is trimmed first.
   */
  function HandleMessage(allowedChatId: string, chatId: string, text: string): (r: MessageAction)
    ensures chatId == "" ==> r == Silent
    ensures chatId != "" && !IsAllowedChat(allowedChatId, chatId) ==> r == Deny(NO_ACCESS + ". chat_id=" + chatId)
    ensures r == Controls <==> chatId != "" && IsAllowedChat(allowedChatId, chatId) && NormalizeCmd(Trim(text)) in CONTROL_COMMANDS
    ensures chatId != "" && IsAllowedChat(allowedChatId, chatId) && NormalizeCmd(Trim(text)) !in CONTROL_COMMANDS ==> r == Silent
  {
    if chatId == "" then Silent
    else if !IsAllowedChat(allowedChatId, chatId) then Deny(NO_ACCESS + ". chat_id=" + chatId)
    else if IsControlCommand(Trim(text)) then Controls
    else Silent
  }

  /** Blank text, or text that is only whitespace, never brings up the controls. */
  lemma BlankMessageSilent(allowedChatId: string, chatId: string, text: string)
    requires forall i :: 0 <= i < |text| ==> IsSpace(text[i])
    ensures HandleMessage(allowedChatId, chatId, text) != Controls
  {
    TrimEmpty(text);
    NormalizeCmdBlank(Trim(text));
  }

  /** Where callback data is sent. */
  datatype Route = Unknown | Workflow(feedKey: string) | Direct(feedKey: string)

  predicate StartsWith(s: string, prefix: string) {
    |prefix| <= |s| && s[..|prefix|] == prefix
  }

  /**
    The routing of callback data: data that starts with neither "run:" nor "run_direct:" is
    unknown; otherwise it is split at its first ":" and the part before it picks the
    workflow dispatch ("run") or the direct trigger.
   */
  function RouteCallback(data: string): (r: Route)
    ensures r == Unknown <==> !StartsWith(data, "run:") && !StartsWith(data, "run_direct:")
    ensures r.Workflow? <==> StartsWith(data, "run:")
    ensures r.Workflow? ==> data == "run:" + r.feedKey
    ensures r.Direct? ==> data == "run_direct:" + r.feedKey
  {
    if !StartsWith(data, "run:") && !StartsWith(data, "run_direct:") then Unknown
    else
      var colon := IndexOf(data, ':');
      assert data[3] == ':' ==> colon <= 3;
      assert StartsWith(data, "run:") ==> colon == 3;
      assert StartsWith(data, "run_direct:") ==> colon == 10 by {
        if StartsWith(data, "run_direct:") {
          assert data[..11] == "run_direct:";
          assert data[10] == ':';
          assert forall j :: 0 <= j < 10 ==> data[j] == "run_direct:"[j] != ':';
        }
      }
      var prefix := data[..colon];
      var feedKey := data[colon + 1..];
      assert data == prefix + ":" + feedKey;
      if prefix == "run" then Workflow(feedKey) else Direct(feedKey)
  }

  /** What the webhook does with a callback query. */
  datatype CallbackAction = Ignore | Answer(text: string) | Run(route: Route)

  /**
    The callback branch of `telegram_webhook`: nothing without a callback id; "no access"
    without a chat or for a chat not allowed; "unknown command" for unroutable data; else
    the routed run. The data is trimmed first.
   */
  function HandleCallback(allowedChatId: string, callbackId: string, chatId: string, data: string): (r: CallbackAction)
    ensures callbackId == "" <==> r == Ignore
    ensures r.Run? ==> chatId != "" && IsAllowedChat(allowedChatId, chatId)
    ensures r.Run? ==> r.route == RouteCallback(Trim(data)) && r.route != Unknown
    ensures callbackId != "" && (chatId == "" || !IsAllowedChat(allowedChatId, chatId)) ==> r == Answer(NO_ACCESS)
    ensures callbackId != "" && chatId != "" && IsAllowedChat(allowedChatId, chatId) ==>
              r == (if RouteCallback(Trim(data)) == Unknown then Answer(UNKNOWN_COMMAND) else Run(RouteCallback(Trim(data))))
  {
    if callbackId == "" then Ignore
    else if chatId == "" || !IsAllowedChat(allowedChatId, chatId) then Answer(NO_ACCESS)
    else
      var route := RouteCallback(Trim(data));
      if route == Unknown then Answer(UNKNOWN_COMMAND) else Run(route)
  }

  /** An allowed chat's callback reaches a network call only for a known feed key. */
  lemma RunOnlyForKnownFeeds(tgToken: string, ghToken: string, allowedChatId: string, callbackId: string, chatId: string, data: string)
    ensures var r := HandleCallback(allowedChatId, callbackId, chatId, data);
            && (r.Run? && r.route.Workflow? && DispatchRefusal(tgToken, ghToken, r.route.feedKey) == None ==>
                  r.route.feedKey in FEED_KEYS && Trim(data) == "run:" + r.route.feedKey)
            && (r.Run? && r.route.Direct? && DirectRefusal(r.route.feedKey) == None ==>
                  r.route.feedKey in DIRECT_FEED_KEYS && Trim(data) == "run_direct:" + r.route.feedKey)
  {
  }
}
