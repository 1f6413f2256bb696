/**
 * The inbound-message handler of the Baileys variant (src/index.js): which
 * text a message carries, how that text is classified first-match into one
 * command, which provider helper the command invokes, and the replies sent.
 * The sponsor-code branch updates the table of module SponsorTable.
 */
module SponsorRouter {
  import opened Options
  import opened Text
  import opened Provider
  import SponsorTable

  const BOT_NAME := "OkitakoyBot"

  const PONG_TEXT := "pong 🏓"
  const HELP_TEXT :=
    "🤖 *" + BOT_NAME + " - Commandes*\n\n"
    + "🔐 *CONNEXION*\n"
    + "• Obtenez votre code sur notre site web\n"
    + "• Envoyez le code de 6 caractères ici\n\n"
    + "🤖 *FONCTIONNALITÉS*\n"
    + "• summarize: texte - Résumé IA\n"
    + "• image: prompt - Génération d'image\n"
    + "• ping - Test de connexion\n\n"
    + "💬 Envoyez un message pour discuter avec l'IA"
  const SUMMARY_PENDING_TEXT := "📝 Résumé en cours..."
  const SUMMARY_HEADER := "📄 *RÉSUMÉ:*\n"
  const IMAGE_PENDING_TEXT := "🎨 Génération image..."
  const IMAGE_HEADER := "🖼️ *IMAGE:*\n"
  const AI_UNAVAILABLE_TEXT := "❌ IA non disponible"
  const SUMMARY_EMPTY_TEXT := "Aucun résumé généré"
  const SUMMARY_ERROR_TEXT := "❌ Erreur résumé"
  const REPLY_ERROR_TEXT := "❌ Erreur de réponse"
  const FLUX_KEY_MISSING_TEXT := "❌ Clé Flux manquante"
  const FLUX_NO_URL_TEXT := "❌ Erreur génération"
  const FLUX_ERROR_TEXT := "❌ Erreur API Flux"

  /** The `message` object of a Baileys upsert: the three places a text can be. */
  datatype MessageContent = MessageContent(
    conversation: Option<string>,
    extendedText: Option<string>,
    imageCaption: Option<string>)

  /** The first message of a `messages.upsert` event. */
  datatype Upsert = Upsert(message: Option<MessageContent>, fromMe: bool)

  /** What the handler does with one message, decided before anything is sent. */
  datatype Command =
    | Ignore
    | CodeAttempt(code: string)
    | Ping
    | Help
    | Summarize(arg: string)
    | Image(prompt: string)
    | Chat(text: string)

  /** A JavaScript string value that is truthy: present and non-empty. */
  predicate Filled(s: Option<string>) {
    s.Some? && s.value != ""
  }

  /** `getMessageText`: the first truthy of conversation, extended text and image caption, else "". */
  function GetMessageText(m: MessageContent): (r: string)
    ensures r == "" <==> !Filled(m.conversation) && !Filled(m.extendedText) && !Filled(m.imageCaption)
    ensures r != "" ==> Some(r) in [m.conversation, m.extendedText, m.imageCaption]
    ensures Filled(m.conversation) ==> r == m.conversation.value
    ensures !Filled(m.conversation) && Filled(m.extendedText) ==> r == m.extendedText.value
  {
    if Filled(m.conversation) then m.conversation.value
    else if Filled(m.extendedText) then m.extendedText.value
    else if Filled(m.imageCaption) then m.imageCaption.value
    else ""
  }

  predicate IsCodeChar(c: char) {
    'A' <= c <= 'Z' || '0' <= c <= '9'
  }

  /** `text.length === 6 && /^[A-Z0-9]{6}$/.test(text)`: case-sensitive and untrimmed. */
  predicate IsCodeShaped(text: string) {
    |text| == 6 && forall i :: 0 <= i < |text| ==> IsCodeChar(text[i])
  }

  /** The `messages.upsert` handler's decision: a message that is absent or sent by the bot itself is ignored,
      otherwise its text is classified. */
  function Classify(u: Upsert): Command {
    if u.message.None? || u.fromMe then Ignore else ClassifyText(GetMessageText(u.message.value))
  }

  /** First match wins: empty text, a code, then the lower-cased text against the commands, else the AI fallback. */
  function ClassifyText(text: string): Command {
    var lower := ToLower(text);
    if text == "" then Ignore
    else if IsCodeShaped(text) then CodeAttempt(text)
    else if lower == "ping" then Ping
    else if lower == "help" then Help
    else if StartsWith(lower, "summarize:") then Summarize(CommandArgument(text))
    else if StartsWith(lower, "image:") then Image(CommandArgument(text))
    else Chat(text)
  }

  /** The provider helper a command invokes, with its argument; an empty argument returns before any call. */
  function ProviderCall(c: Command): Option<Call> {
    match c
    case Summarize(arg) => if arg == "" then None else Some(Call(Summary, arg))
    case Image(prompt) => if prompt == "" then None else Some(Call(ImageGeneration, prompt))
    case Chat(text) => Some(Call(Reply, text))
    case _ => None
  }

  /** `summarizeWithGemini`: the text that follows the summary header. */
  function GeminiSummary(o: Outcome): (r: string)
    ensures r != ""
    ensures o.Ok? && o.content != "" ==> r == o.content
  {
    match o
    case MissingKey => AI_UNAVAILABLE_TEXT
    case Failed => SUMMARY_ERROR_TEXT
    case Ok(content) => if content == "" then SUMMARY_EMPTY_TEXT else content
  }

  /** `generateAIReply`: empty exactly when the model answered with empty text. */
  function GeminiReply(o: Outcome): (r: string)
    ensures r == "" <==> o == Ok("")
    ensures o.Ok? ==> r == o.content
  {
    match o
    case MissingKey => AI_UNAVAILABLE_TEXT
    case Failed => REPLY_ERROR_TEXT
    case Ok(content) => content
  }

  /** `generateImageFluxAI`: the returned URL verbatim, or one of three fixed failure texts. */
  function FluxImage(o: Outcome): (r: string)
    ensures r != ""
    ensures o.Ok? && o.content != "" ==> r == o.content
  {
    match o
    case MissingKey => FLUX_KEY_MISSING_TEXT
    case Failed => FLUX_ERROR_TEXT
    case Ok(url) => if url == "" then FLUX_NO_URL_TEXT else url
  }

  /** The replies for every command but a code attempt; `o` is how the provider call (if any) ended. */
  function Replies(c: Command, o: Outcome): seq<string>
    requires !c.CodeAttempt?
  {
    match c
    case Ignore => []
    case Ping => [PONG_TEXT]
    case Help => [HELP_TEXT]
    case Summarize(arg) => if arg == "" then [] else [SUMMARY_PENDING_TEXT, SUMMARY_HEADER + GeminiSummary(o)]
    case Image(prompt) => if prompt == "" then [] else [IMAGE_PENDING_TEXT, IMAGE_HEADER + FluxImage(o)]
    case Chat(text) => var reply := GeminiReply(o); if reply == "" then [] else [reply]
  }

  /** The whole `messages.upsert` handler: a code attempt goes to the table, everything else to `Replies`. */
  method HandleUpsert(table: SponsorTable.Table, u: Upsert, now: int, o: Outcome) returns (replies: seq<string>)
    requires table.Valid()
    modifies table
    ensures table.Valid()
    ensures Classify(u).CodeAttempt? ==>
      var code := Classify(u).code;
      if SponsorTable.Redeemable(old(table.entries), code, now) then
        && table.entries == SponsorTable.Delete(old(table.entries), code)
        && replies == [SponsorTable.WelcomeText(SponsorTable.Find(old(table.entries), code).value.phone)]
      else
        table.entries == old(table.entries) && replies == [SponsorTable.INVALID_CODE_TEXT]
    ensures !Classify(u).CodeAttempt? ==> table.entries == old(table.entries) && replies == Replies(Classify(u), o)
  {
    var command := Classify(u);
    if command.CodeAttempt? {
      var reply := table.Redeem(command.code, now);
      replies := [reply];
    } else {
      replies := Replies(command, o);
    }
  }

  // ---------------------------------------------------------------------------
  // Properties of the router.

  /** Text that is exactly six characters of [A-Z0-9] is only ever a code attempt, and only such text is. */
  lemma CodeShapedOnlyRedeems(text: string)
    ensures IsCodeShaped(text) <==> ClassifyText(text) == CodeAttempt(text)
    ensures ClassifyText(text).CodeAttempt? ==> ClassifyText(text).code == text
  {
  }

  /** The shape test is case-sensitive: a code with a letter, sent in lower case, is not a code attempt, matches
      no command and goes to the AI fallback. */
  lemma LowerCodeIsChat(code: string, i: nat)
    requires IsCodeShaped(code) && i < |code| && 'A' <= code[i] <= 'Z'
    ensures ClassifyText(ToLower(code)) == Chat(ToLower(code))
  {
    var text := ToLower(code);
    var lower := ToLower(text);
    assert !IsCodeShaped(text) by {
      assert text[i] == LowerChar(code[i]) && !IsCodeChar(text[i]);
    }
    assert |lower| == 6 && lower != "ping" && lower != "help";
    assert !StartsWith(lower, "summarize:");
    assert !StartsWith(lower, "image:") by {
      assert lower[5] == LowerChar(LowerChar(code[5])) && IsCodeChar(code[5]);
      assert lower[..6][5] == lower[5];
    }
    ChatClassified(text);
  }

  /** The shape test does not trim: a code sent behind a space is not a code attempt, matches no command and
      goes to the AI fallback. */
  lemma SpacedCodeIsChat(code: string)
    requires IsCodeShaped(code)
    ensures ClassifyText(" " + code) == Chat(" " + code)
  {
    var text := " " + code;
    var lower := ToLower(text);
    assert |text| == 7 && !IsCodeShaped(text);
    assert lower[0] == ' ' && lower != "ping" && lower != "help";
    assert !StartsWith(lower, "summarize:") && !StartsWith(lower, "image:") by {
      assert lower[..6][0] == ' ';
    }
    ChatClassified(text);
  }

  /** Any message that lower-cases to `ping` gets the single pong reply, and no provider is called. */
  lemma PingClassified(text: string, o: Outcome)
    requires ToLower(text) == "ping"
    ensures ClassifyText(text) == Ping
    ensures Replies(ClassifyText(text), o) == [PONG_TEXT]
    ensures ProviderCall(ClassifyText(text)) == None
  {
    assert |text| == 4;
  }

  /** Any message that lower-cases to `help` gets the single help text, and no provider is called; the word
      `aide` is not a command in this variant. */
  lemma HelpClassified(text: string, o: Outcome)
    requires ToLower(text) == "help"
    ensures ClassifyText(text) == Help
    ensures Replies(ClassifyText(text), o) == [HELP_TEXT]
    ensures ProviderCall(ClassifyText(text)) == None
  {
    assert |text| == 4 && ToLower(text) != "ping";
  }

  /** An upsert is ignored exactly when its message is absent, sent by the bot itself, or carries no text. */
  lemma IgnoredIffNoText(u: Upsert)
    ensures Classify(u) == Ignore <==>
      u.message.None? || u.fromMe || GetMessageText(u.message.value) == ""
  {
  }

  /** The AI fallback is reached exactly by non-empty text that is neither a code nor a command, and it carries
      the whole text, untrimmed. */
  lemma ChatClassified(text: string)
    ensures ClassifyText(text).Chat? <==>
      var lower := ToLower(text);
      && text != "" && !IsCodeShaped(text) && lower != "ping" && lower != "help"
      && !StartsWith(lower, "summarize:") && !StartsWith(lower, "image:")
    ensures ClassifyText(text).Chat? ==> ClassifyText(text) == Chat(text)
  {
  }

  /** Unlike the whatsapp-web.js variant, this one does not trim: text made only of whitespace goes to the AI. */
  lemma BlankReachesAI(text: string)
    requires text != "" && forall k :: 0 <= k < |text| ==> IsWhitespace(text[k])
    ensures ClassifyText(text) == Chat(text)
    ensures ProviderCall(ClassifyText(text)) == Some(Call(Reply, text))
  {
    var lower := ToLower(text);
    assert IsWhitespace(text[0]) && lower[0] == text[0];
    assert !IsCodeShaped(text) by {
      assert !IsCodeChar(text[0]);
    }
    assert lower != "ping" && lower != "help";
    assert !StartsWith(lower, "summarize:") && !StartsWith(lower, "image:") by {
      if |lower| >= 6 { assert lower[..6][0] == lower[0]; }
    }
    ChatClassified(text);
  }

  /** `"summarize:" + q`, the word in any letter case, yields `Summarize(Trim(q))`; colons inside `q` are kept. */
  lemma SummarizeArgument(p: string, q: string)
    requires ToLower(p) == "summarize"
    ensures ClassifyText(p + ":" + q) == Summarize(Trim(q))
  {
    PrefixedArgument(p, q, "summarize");
    SummarizePrefixClassified(p + ":" + q);
  }

  /** `"image:" + q`, the word in any letter case, yields `Image(Trim(q))`; colons inside `q` are kept. */
  lemma ImageArgument(p: string, q: string)
    requires ToLower(p) == "image"
    ensures ClassifyText(p + ":" + q) == Image(Trim(q))
  {
    PrefixedArgument(p, q, "image");
    ImagePrefixClassified(p + ":" + q);
  }

  /** Any text whose lower-cased form starts with "summarize:" is a summarize command. */
  lemma SummarizePrefixClassified(text: string)
    requires StartsWith(ToLower(text), "summarize:")
    ensures ClassifyText(text) == Summarize(CommandArgument(text))
  {
    var lower := ToLower(text);
    assert |lower| >= 10;
    assert text != "" && !IsCodeShaped(text);
    assert lower != "ping" && lower != "help";
  }

  /** Any text whose lower-cased form starts with "image:" is an image command. */
  lemma ImagePrefixClassified(text: string)
    requires StartsWith(ToLower(text), "image:")
    ensures ClassifyText(text) == Image(CommandArgument(text))
  {
    var lower := ToLower(text);
    assert |lower| >= 6;
    assert text != "" && !IsCodeShaped(text) by {
      assert lower[5] == ':' && LowerChar(text[5]) == lower[5];
      assert !IsCodeChar(text[5]);
    }
    assert lower != "ping" && lower != "help";
    assert lower[0] == 'i' by {
      assert lower[..6][0] == lower[0];
    }
    assert !StartsWith(lower, "summarize:") by {
      if |lower| >= 10 { assert lower[..10][0] == 'i'; }
    }
  }

  /** A command with no provider call sends at most one reply, and the same replies whatever any provider would do. */
  lemma NoCallNoProvider(c: Command, o1: Outcome, o2: Outcome)
    requires !c.CodeAttempt? && ProviderCall(c).None?
    ensures Replies(c, o1) == Replies(c, o2)
    ensures |Replies(c, o1)| <= 1
  {
  }

  /** An empty summarize or image argument sends nothing at all in this variant. */
  lemma EmptyArgumentIsSilent(c: Command)
    requires c == Summarize("") || c == Image("")
    ensures forall o :: Replies(c, o) == []
    ensures ProviderCall(c) == None
  {
  }

  /** A non-empty summarize or image argument is passed verbatim to exactly one provider call, and exactly two
      replies follow: the working notice, then the header with the provider's text or a fixed failure text. */
  lemma WorkingThenResult(c: Command, o: Outcome)
    requires c.Summarize? || c.Image?
    requires ProviderCall(c).Some?
    ensures c.Summarize? ==>
      && ProviderCall(c) == Some(Call(Summary, c.arg))
      && Replies(c, o) == [SUMMARY_PENDING_TEXT, SUMMARY_HEADER + GeminiSummary(o)]
    ensures c.Image? ==>
      && ProviderCall(c) == Some(Call(ImageGeneration, c.prompt))
      && Replies(c, o) == [IMAGE_PENDING_TEXT, IMAGE_HEADER + FluxImage(o)]
  {
  }

  /** The AI fallback answers exactly when the model's result is non-empty. */
  lemma ChatRepliesIffNonEmpty(text: string, o: Outcome)
    ensures Replies(Chat(text), o) == [] <==> o == Ok("")
    ensures o.Ok? && o.content != "" ==> Replies(Chat(text), o) == [o.content]
  {
  }

  // ---------------------------------------------------------------------------
  // Connection updates.

  /** `lastDisconnect?.error?.output?.statusCode !== 401`: every close reconnects except one with status 401;
      an absent status code reconnects. */
  function ShouldReconnect(statusCode: Option<int>): (r: bool)
    ensures statusCode.None? ==> r
    ensures statusCode.Some? ==> (r <==> statusCode.value != 401)
  {
    statusCode != Some(401)
  }

  datatype ConnectionUpdate = ConnectionUpdate(connection: Option<string>, statusCode: Option<int>)

  /** Whether a `connection.update` event schedules `initializeBot` again: only a `close` that is not a 401. */
  function ReconnectScheduled(update: ConnectionUpdate): (r: bool)
    ensures r <==> update.connection == Some("close") && update.statusCode != Some(401)
  {
    update.connection == Some("close") && ShouldReconnect(update.statusCode)
  }

  // ---------------------------------------------------------------------------
  // Sponsor-code generation: `Math.random().toString(36).substring(2, 8).toUpperCase()`.

  /** The base-36 text of a number in [0, 1): "0", or "0." and lower-case base-36 digits. */
  predicate IsBase36Fraction(repr: string) {
    repr == "0" ||
    (|repr| > 2 && repr[..2] == "0." && forall i :: 2 <= i < |repr| ==> 'a' <= repr[i] <= 'z' || '0' <= repr[i] <= '9')
  }

  /** `generateSponsorCode` as written, from the base-36 text of the random number. */
  function SponsorCode(repr: string): (r: string)
    ensures |r| <= 6
  {
    ToUpper(Substring(repr, 2, 8))
  }

  /** `generateSponsorCode` with the evident intent of six characters: the digits padded with '0' to six
      (`padEnd(6, "0")`) before upper-casing. */
  function SponsorCodePadded(repr: string): (r: string)
    ensures |r| == 6
  {
    var digits := Substring(repr, 2, 8);
    ToUpper(digits + seq(6 - |digits|, _ => '0'))
  }

  /** As written: when the base-36 text of the random number has fewer than eight characters the code is shorter
      than six, and sending it is never a code attempt, so the code can never be redeemed. */
  lemma ShortSponsorCodeUnredeemable(repr: string)
    requires |repr| < 8
    ensures |SponsorCode(repr)| < 6
    ensures !ClassifyText(SponsorCode(repr)).CodeAttempt?
  {
  }

  /** As written, a concrete case: `Math.random()` returning 0.5 has base-36 text "0.i", so the issued code is "I",
      and a user who sends "I" gets the AI fallback instead of a connection. */
  lemma HalfGivesOneLetterCode()
    ensures SponsorCode("0.i") == "I"
    ensures ClassifyText("I") == Chat("I")
  {
    assert Substring("0.i", 2, 8) == "i";
    assert ToLower("I") == "i";
  }

  /** Corrected: every random number's code is six characters of [A-Z0-9], so sending it is a code attempt for it. */
  lemma PaddedSponsorCodeRedeemable(repr: string)
    requires IsBase36Fraction(repr)
    ensures IsCodeShaped(SponsorCodePadded(repr))
    ensures ClassifyText(SponsorCodePadded(repr)) == CodeAttempt(SponsorCodePadded(repr))
  {
    var digits := Substring(repr, 2, 8);
    var padded := digits + seq(6 - |digits|, _ => '0');
    forall i | 0 <= i < 6 ensures IsCodeChar(SponsorCodePadded(repr)[i]) {
      if i < |digits| {
        assert padded[i] == repr[2 + i];
      } else {
        assert padded[i] == '0';
      }
    }
  }
}
