/**
 * The whatsapp-web.js variant (index.js): the `message` handler's first-match
 * routing of the trimmed body, the reply texts built from the OpenRouter and
 * Flux outcomes, the session-backup archive name, and the log timestamp and
 * log-file name built from an ISO-8601 timestamp.
 */
module Bot {
  import opened Options
  import opened Text
  import opened Provider

  const PONG_TEXT := "pong ✅"
  const HELP_TEXT :=
    "📋 Commandes disponibles :\n"
    + "- *ping* → test du bot\n"
    + "- *summarize: texte* → résume un texte\n"
    + "- *image: prompt* → génère une image\n"
    + "- Toute autre phrase → réponse intelligente IA."
  const SUMMARY_USAGE_TEXT := "Format : summarize: [ton texte]"
  const SUMMARY_PENDING_TEXT := "⏳ Résumé en cours..."
  const SUMMARY_KEY_MISSING_TEXT := "❌ Clé OpenRouter manquante."
  const SUMMARY_EMPTY_TEXT := "Aucun résumé reçu."
  const SUMMARY_ERROR_TEXT := "Erreur lors du résumé."
  const IMAGE_USAGE_TEXT := "Format : image: [ton prompt]"
  const IMAGE_PENDING_TEXT := "🖼️ Génération d'image..."
  const IMAGE_DONE_PREFIX := "Image générée : "
  const IMAGE_ERROR_TEXT := "Erreur lors de la génération d'image."
  const PLACEHOLDER_URL := "https://example.com/image-placeholder.png"
  const REPLY_KEY_MISSING_TEXT := "Clé OpenRouter non configurée."
  const REPLY_ERROR_TEXT := "Je n\U{2019}ai pas pu traiter votre message."

  /** What the handler does with one message, decided before anything is sent. */
  datatype Command =
    | Ignore
    | Ping
    | Help
    | Summarize(arg: string)
    | Image(prompt: string)
    | Chat(text: string)

  /** `msg.body?.trim() || ""`: an absent body counts as empty. */
  function Body(body: Option<string>): string {
    if body.None? then "" else Trim(body.value)
  }

  /** The handler's decision on the trimmed body, first match wins. */
  function Route(body: Option<string>): Command {
    RouteText(Body(body))
  }

  /** The if-chain on a trimmed body: `ping`, `help`/`aide`, the two prefixes, then the AI fallback for any
      non-empty body. */
  function RouteText(body: string): Command {
    var lower := ToLower(body);
    if lower == "ping" then Ping
    else if lower == "help" || lower == "aide" then Help
    else if StartsWith(lower, "summarize:") then Summarize(CommandArgument(body))
    else if StartsWith(lower, "image:") then Image(CommandArgument(body))
    else if |body| > 0 then Chat(body)
    else Ignore
  }

  /** The provider helper a command invokes, with its argument; an empty argument returns before any call. */
  function ProviderCall(c: Command): Option<Call> {
    match c
    case Summarize(arg) => if arg == "" then None else Some(Call(Summary, arg))
    case Image(prompt) => if prompt == "" then None else Some(Call(ImageGeneration, prompt))
    case Chat(text) => Some(Call(Reply, text))
    case _ => None
  }

  /** `summarizeWithOpenRouter`: never empty; the model's text when it gave one, else a fixed text per failure. */
  function OpenRouterSummary(o: Outcome): (r: string)
    ensures r != ""
    ensures o.Ok? && o.content != "" ==> r == o.content
    ensures o == Ok("") ==> r == SUMMARY_EMPTY_TEXT
    ensures o == MissingKey ==> r == SUMMARY_KEY_MISSING_TEXT
    ensures o == Failed ==> r == SUMMARY_ERROR_TEXT
  {
    match o
    case MissingKey => SUMMARY_KEY_MISSING_TEXT
    case Failed => SUMMARY_ERROR_TEXT
    case Ok(content) => if content == "" then SUMMARY_EMPTY_TEXT else content
  }

  /** `generateAIReply`: empty exactly when the model answered with empty text. */
  function OpenRouterReply(o: Outcome): (r: string)
    ensures r == "" <==> o == Ok("")
    ensures o.Ok? ==> r == o.content
    ensures o == MissingKey ==> r == REPLY_KEY_MISSING_TEXT
    ensures o == Failed ==> r == REPLY_ERROR_TEXT
  {
    match o
    case MissingKey => REPLY_KEY_MISSING_TEXT
    case Failed => REPLY_ERROR_TEXT
    case Ok(content) => content
  }

  /** `generateImageFluxAI` and the handler's `try`/`catch` around it: a missing key throws like a failed
      request, and both give the error text; a success reports the URL, or the placeholder when it is empty. */
  function ImageResult(o: Outcome): (r: string)
    ensures StartsWith(r, IMAGE_DONE_PREFIX) <==> o.Ok?
    ensures o.Ok? && o.content != "" ==> r == IMAGE_DONE_PREFIX + o.content
    ensures o == Ok("") ==> r == IMAGE_DONE_PREFIX + PLACEHOLDER_URL
    ensures !o.Ok? ==> r == IMAGE_ERROR_TEXT
  {
    assert IMAGE_ERROR_TEXT[0] != IMAGE_DONE_PREFIX[0];
    match o
    case Ok(url) => IMAGE_DONE_PREFIX + (if url == "" then PLACEHOLDER_URL else url)
    case _ => IMAGE_ERROR_TEXT
  }

  /** The replies sent for a command, in order; `o` is how the provider call (if any) ended. */
  function Replies(c: Command, o: Outcome): seq<string> {
    match c
    case Ignore => []
    case Ping => [PONG_TEXT]
    case Help => [HELP_TEXT]
    case Summarize(arg) => if arg == "" then [SUMMARY_USAGE_TEXT] else [SUMMARY_PENDING_TEXT, OpenRouterSummary(o)]
    case Image(prompt) => if prompt == "" then [IMAGE_USAGE_TEXT] else [IMAGE_PENDING_TEXT, ImageResult(o)]
    case Chat(text) => var reply := OpenRouterReply(o); if reply == "" then [] else [reply]
  }

  // ---------------------------------------------------------------------------
  // Properties of the router.

  /** `ping` in any letter case, with any surrounding whitespace, gets the single pong reply and no provider call. */
  lemma PingAnswered(raw: string, o: Outcome)
    requires ToLower(Trim(raw)) == "ping"
    ensures Route(Some(raw)) == Ping
    ensures Replies(Route(Some(raw)), o) == [PONG_TEXT]
    ensures ProviderCall(Route(Some(raw))) == None
  {
    RouteOfBody(Some(raw));
  }

  /** `help` or `aide` in any letter case gets exactly the command list and no provider call. */
  lemma HelpAnswered(raw: string, o: Outcome)
    requires ToLower(Trim(raw)) == "help" || ToLower(Trim(raw)) == "aide"
    ensures Route(Some(raw)) == Help
    ensures Replies(Route(Some(raw)), o) == [HELP_TEXT]
    ensures ProviderCall(Route(Some(raw))) == None
  {
    RouteOfBody(Some(raw));
  }

  /** A message is ignored exactly when its body is absent or all whitespace; every other message is answered
      or sent to the AI. */
  lemma IgnoredIffBlank(body: Option<string>)
    ensures Route(body) == Ignore <==> Body(body) == ""
    ensures body.Some? ==> (Route(body) == Ignore <==> forall k :: 0 <= k < |body.value| ==> IsWhitespace(body.value[k]))
  {
    RouteOfBody(body);
    RouteTextIgnored(Body(body));
    if body.Some? {
      TrimEmpty(body.value);
    }
  }

  /** Routing a trimmed body yields `Ignore` exactly for the empty body. */
  lemma RouteTextIgnored(b: string)
    ensures RouteText(b) == Ignore <==> b == ""
  {
  }

  /** `Route` is `RouteText` of the trimmed body; stated once so that callers need not unfold the trim. */
  lemma RouteOfBody(body: Option<string>)
    ensures Route(body) == RouteText(Body(body))
  {
  }

  /** The AI fallback receives the whole trimmed body, which is never empty. */
  lemma ChatGetsWholeBody(body: Option<string>)
    requires Route(body).Chat?
    ensures Route(body).text == Body(body) != ""
    ensures ProviderCall(Route(body)) == Some(Call(Reply, Body(body)))
  {
    RouteOfBody(body);
    RouteTextChat(Body(body));
  }

  /** The fallback carries the body it was given, and that body is not empty. */
  lemma RouteTextChat(b: string)
    requires RouteText(b).Chat?
    ensures RouteText(b) == Chat(b) && b != ""
  {
  }

  /** The AI fallback is reached exactly by a non-empty trimmed body that matches no command, so no such body is
      dropped, and it carries that body. */
  lemma ChatRouted(b: string)
    ensures RouteText(b).Chat? <==>
      var lower := ToLower(b);
      && b != "" && lower != "ping" && lower != "help" && lower != "aide"
      && !StartsWith(lower, "summarize:") && !StartsWith(lower, "image:")
    ensures RouteText(b).Chat? ==> RouteText(b) == Chat(b)
  {
  }

  /** A trimmed body `p + ":" + q` with `p` lower-casing to "summarize" yields `Summarize(Trim(q))`; colons
      inside `q` are kept. */
  lemma SummarizeArgument(raw: string, p: string, q: string)
    requires Trim(raw) == p + ":" + q
    requires ToLower(p) == "summarize"
    ensures Route(Some(raw)) == Summarize(Trim(q))
  {
    RouteOfBody(Some(raw));
    SummarizeTextArgument(p, q);
  }

  /** The same on a body that is already trimmed. */
  lemma SummarizeTextArgument(p: string, q: string)
    requires ToLower(p) == "summarize"
    ensures RouteText(p + ":" + q) == Summarize(Trim(q))
  {
    PrefixedArgument(p, q, "summarize");
    SummarizePrefixRouted(p + ":" + q);
  }

  /** A trimmed body `p + ":" + q` with `p` lower-casing to "image" yields `Image(Trim(q))`; colons inside `q`
      are kept. */
  lemma ImageArgument(raw: string, p: string, q: string)
    requires Trim(raw) == p + ":" + q
    requires ToLower(p) == "image"
    ensures Route(Some(raw)) == Image(Trim(q))
  {
    RouteOfBody(Some(raw));
    ImageTextArgument(p, q);
  }

  /** The same on a body that is already trimmed. */
  lemma ImageTextArgument(p: string, q: string)
    requires ToLower(p) == "image"
    ensures RouteText(p + ":" + q) == Image(Trim(q))
  {
    PrefixedArgument(p, q, "image");
    ImagePrefixRouted(p + ":" + q);
  }

  /** Any body whose lower-cased form starts with "summarize:" is a summarize command. */
  lemma SummarizePrefixRouted(body: string)
    requires StartsWith(ToLower(body), "summarize:")
    ensures RouteText(body) == Summarize(CommandArgument(body))
  {
    var lower := ToLower(body);
    assert |lower| >= 10;
    assert lower != "ping" && lower != "help" && lower != "aide";
  }

  /** Any body whose lower-cased form starts with "image:" is an image command. */
  lemma ImagePrefixRouted(body: string)
    requires StartsWith(ToLower(body), "image:")
    ensures RouteText(body) == Image(CommandArgument(body))
  {
    var lower := ToLower(body);
    assert |lower| >= 6;
    assert lower != "ping" && lower != "help" && lower != "aide";
    assert lower[0] == 'i' by {
      assert lower[..6][0] == lower[0];
    }
    assert !StartsWith(lower, "summarize:") by {
      if |lower| >= 10 { assert lower[..10][0] == 'i'; }
    }
  }

  /** An empty summarize or image argument gets only the usage reply, and no provider is called. */
  lemma EmptyArgumentGetsUsage(c: Command, o: Outcome)
    requires c == Summarize("") || c == Image("")
    ensures ProviderCall(c) == None
    ensures Replies(c, o) == [if c.Summarize? then SUMMARY_USAGE_TEXT else IMAGE_USAGE_TEXT]
  {
  }

  /** A command with no provider call sends at most one reply, and the same replies whatever any provider would do. */
  lemma NoCallNoProvider(c: Command, o1: Outcome, o2: Outcome)
    requires ProviderCall(c).None?
    ensures Replies(c, o1) == Replies(c, o2)
    ensures |Replies(c, o1)| <= 1
  {
  }

  /** A non-empty summarize or image argument goes verbatim to exactly one provider call, and exactly two replies
      follow: the working notice, then the result text. */
  lemma WorkingThenResult(c: Command, o: Outcome)
    requires c.Summarize? || c.Image?
    requires ProviderCall(c).Some?
    ensures c.Summarize? ==>
      && ProviderCall(c) == Some(Call(Summary, c.arg))
      && Replies(c, o) == [SUMMARY_PENDING_TEXT, OpenRouterSummary(o)]
    ensures c.Image? ==>
      && ProviderCall(c) == Some(Call(ImageGeneration, c.prompt))
      && Replies(c, o) == [IMAGE_PENDING_TEXT, ImageResult(o)]
  {
  }

  /** The AI fallback answers exactly when the model's result is non-empty, and then with that text. */
  lemma ChatRepliesIffNonEmpty(text: string, o: Outcome)
    ensures Replies(Chat(text), o) == [] <==> o == Ok("")
    ensures Replies(Chat(text), o) != [] ==> Replies(Chat(text), o) == [OpenRouterReply(o)]
  {
  }

  // ---------------------------------------------------------------------------
  // Names built from `new Date().toISOString()`.

  predicate IsDigit(c: char) {
    '0' <= c <= '9'
  }

  /** The shape of `Date.prototype.toISOString` for a four-digit year: `YYYY-MM-DDTHH:mm:ss.sssZ`. */
  predicate IsIsoTimestamp(s: string) {
    && |s| == 24
    && s[4] == '-' && s[7] == '-' && s[10] == 'T' && s[13] == ':' && s[16] == ':' && s[19] == '.' && s[23] == 'Z'
    && forall i :: 0 <= i < 24 && i !in {4, 7, 10, 13, 16, 19, 23} ==> IsDigit(s[i])
  }

  /** `"session-" + iso.replace(/[:.]/g, "-") + ".zip"`: the archive name holds no colon, and no dot before the
      extension. */
  function BackupName(iso: string): (r: string)
    ensures |r| == |iso| + 12
    ensures StartsWith(r, "session-") && r[|r| - 4..] == ".zip"
    ensures forall i :: 0 <= i < |r| ==> r[i] != ':'
    ensures forall i :: 0 <= i < |r| - 4 ==> r[i] != '.'
  {
    "session-" + ReplaceEach(iso, ':', '.', '-') + ".zip"
  }

  /** `autoExportSession`: nothing when the auth directory is missing, otherwise an archive with the backup name. */
  function AutoExportSession(authDirExists: bool, iso: string): (r: Option<string>)
    ensures r.None? <==> !authDirExists
    ensures r.Some? ==> r.value == BackupName(iso)
  {
    if authDirExists then Some(BackupName(iso)) else None
  }

  /** Two ISO timestamps give the same backup name only when they are the same instant, so a backup never
      overwrites one taken at another millisecond. */
  lemma BackupNameInjective(a: string, b: string)
    requires IsIsoTimestamp(a) && IsIsoTimestamp(b)
    requires BackupName(a) == BackupName(b)
    ensures a == b
  {
    var ra := ReplaceEach(a, ':', '.', '-');
    var rb := ReplaceEach(b, ':', '.', '-');
    assert ra == BackupName(a)[8..32];
    assert rb == BackupName(b)[8..32];
    forall i | 0 <= i < 24 ensures a[i] == b[i] {
      if i in {13, 16, 19} {
      } else {
        assert ra[i] == a[i] && rb[i] == b[i];
      }
    }
  }

  /** `iso.replace("T", " ").split(".")[0]` */
  function LogTimestamp(iso: string): string {
    Split(ReplaceFirst(iso, 'T', ' '), '.')[0]
  }

  /** `"okibot-" + iso.slice(0, 10) + ".log"` */
  function LogFileName(iso: string): string {
    "okibot-" + Substring(iso, 0, 10) + ".log"
  }

  /** For an ISO timestamp the log timestamp is `YYYY-MM-DD HH:mm:ss`: the date, a space, and the time to the
      second. */
  lemma LogTimestampOfIso(iso: string)
    requires IsIsoTimestamp(iso)
    ensures LogTimestamp(iso) == iso[..10] + " " + iso[11..19]
  {
    var stamp := iso[..10] + " " + iso[11..19];
    var replaced := ReplaceFirst(iso, 'T', ' ');
    IsoSpaced(iso);
    assert replaced == stamp + ['.'] + iso[20..];
    assert '.' !in stamp by {
      forall i | 0 <= i < 19 ensures stamp[i] != '.' {
        if i != 10 {
          assert stamp[i] == iso[i];
        }
      }
    }
    SplitHead(replaced, '.');
    BeforeFirstPrefix(stamp, '.', iso[20..]);
  }

  /** In an ISO timestamp the first 'T' is the date-time separator, so `replace("T", " ")` changes only that one. */
  lemma IsoSpaced(iso: string)
    requires IsIsoTimestamp(iso)
    ensures ReplaceFirst(iso, 'T', ' ') == iso[..10] + " " + iso[11..]
  {
    assert iso == iso[..10] + ['T'] + iso[11..];
    assert 'T' !in iso[..10] by {
      forall i | 0 <= i < 10 ensures iso[..10][i] != 'T' {
        assert i == 4 || i == 7 || IsDigit(iso[i]);
      }
    }
    BeforeFirstPrefix(iso[..10], 'T', iso[11..]);
  }

  /** The log file of a line is named after the date printed in that line's timestamp. */
  lemma LogFileMatchesTimestamp(iso: string)
    requires IsIsoTimestamp(iso)
    ensures |LogTimestamp(iso)| == 19
    ensures LogFileName(iso) == "okibot-" + LogTimestamp(iso)[..10] + ".log"
  {
    LogTimestampOfIso(iso);
    assert (iso[..10] + " " + iso[11..19])[..10] == iso[..10];
  }
}
