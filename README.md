# OkitakoyBot decision logic in Dafny

OkitakoyBot is a WhatsApp bot that comes in two variants:

- a Baileys variant, `src/index.js`, with a sponsor-code ("parrainage") pairing flow;
- a whatsapp-web.js variant, `index.js`, with session backups and a file logger.

This project models the parts of both that decide things. Messages, HTTP and the file system are not modelled.

- **The sponsor-code table** (`sponsor_table.dfy`, module `SponsorTable`). The `pendingConnections` `Map` maps a code to `{phone, expiry, timestamp}`. The model is a class `Table` whose `entries` field is the insertion-ordered sequence a JS `Map` keeps, with pairwise distinct codes. It has three operations:
  - `/generate-code` purges expired entries with a loop that deletes while iterating, then sets the new code.
  - `/admin/codes` lists the live entries with a push loop.
  - The message handler redeems a code once.

  The clock (`Date.now()`) and the random code are parameters. The expiry comparisons keep the source's asymmetry: redeeming and listing need `now < expiry`, while purging removes only `now > expiry`.
- **The Baileys message router** (`sponsor_router.dfy`, module `SponsorRouter`). It picks the text out of a message (`getMessageText`) and classifies it first-match:
  1. empty text is ignored;
  2. exactly six characters of `[A-Z0-9]` is a code attempt;
  3. `ping`, then `help`;
  4. the `summarize:` and `image:` prefixes;
  5. otherwise the AI fallback.

  The module also maps each provider outcome to the replies sent, and holds the reconnect predicate of the `connection.update` handler and the code generator `generateSponsorCode`.
- **The whatsapp-web.js message router** (`bot.dfy`, module `Bot`). The body is trimmed and then lower-cased. It is matched against `ping`, then `help`/`aide`, then the two prefixes; any other non-empty body goes to the AI. The module also covers:
  - the OpenRouter and Flux reply texts;
  - the session-backup archive name and the no-op guard of `autoExportSession`;
  - the log timestamp and the log-file name, both built from `toISOString()`.
- **String operations** (`text.dfy`, module `Text`): JavaScript's `trim`, `toLowerCase`/`toUpperCase`, `startsWith`, `substring`, `split`/`join` on one character, and `replace`. Each is defined as literally as possible and related to a reference definition. For example, `split(':').slice(1).join(':')` is proved to be "everything after the first colon".
- `provider.dfy` (module `Provider`) holds the abstract provider outcome: missing key, failure, or content. It also holds the record of which provider helper a command invokes, and with what argument. `options.dfy` holds `Option`.

The providers (Gemini, OpenRouter, Flux) are never called. Each command yields:

- the provider call it would make, if any (`ProviderCall`);
- the replies sent for any given `Outcome` (`Replies`).

"No provider is consulted" therefore means that there is no call, and that the replies are the same whatever the outcome.

The two variants differ on a few points, and the model keeps each as written:

- `src/index.js` sends nothing at all for an empty `summarize:` or `image:` argument (lines 137 and 145). `index.js` sends a usage text (lines 128 and 136).
- `src/index.js` knows only `help` (line 104). `index.js` also knows `aide` (line 116).
- `src/index.js` does not trim the text, so text made only of whitespace goes to the AI there. `index.js` trims the body and ignores such a message.

`toLowerCase` is modelled on ASCII letters only. This does not change routing. The only non-ASCII characters whose lower case contains ASCII letters are U+0130 and U+212A:

- U+0130 (İ) lowers to `i` followed by U+0307, which is two characters. It can therefore never turn a body into `ping`, `help`, `aide`, `summarize:` or `image:`.
- U+212A (Kelvin sign) lowers to `k`, and `k` occurs in none of those words.

The command argument is always cut from the original text, never from its lower-cased form.

## Model

| member | source | states |
|---|---|---|
| Text.Trim | index.js:111 | `s.trim()` is the slice of `s` from its first to just after its last non-whitespace character (characterised by TrimSpec) |
| Text.IsWhitespace | index.js:111 | the characters `trim()` removes: ECMAScript WhiteSpace (tab, vertical tab, form feed, space, no-break space, zero-width no-break space and the Unicode space separators) and LineTerminator (LF, CR, U+2028, U+2029) |
| Text.TrimSpec | index.js:111 | `trim()` returns a piece of the text that starts and ends with non-whitespace, and everything cut from either end is whitespace (ECMAScript WhiteSpace and LineTerminator) |
| Text.TrimEmpty | index.js:111 | a body trims to empty exactly when every character is whitespace |
| Text.ToLower | src/index.js:84 | lower-casing keeps the length and maps each character on its own |
| Text.ToUpper | src/index.js:31 | upper-casing keeps the length and maps each character on its own |
| Text.ToLowerPrefix | src/index.js:105-106 | `lower.startsWith(p)` depends only on the first `\|p\|` characters, lower-cased |
| Text.StartsWith | src/index.js:105-106 | `s.startsWith(p)` (also index.js:126 and 134): `p` is no longer than `s` and equals its first `\|p\|` characters |
| Text.Substring | src/index.js:31 | `substring(start, end)` clamps both bounds to the length; the result's characters are those from `start` on |
| Text.Split | src/index.js:136 | `split` returns at least one piece, and no piece contains the separator |
| Text.JoinSplit | src/index.js:136 | joining the pieces of a split with the same separator gives back the text |
| Text.SplitHead | index.js:55 | the first piece of a split is the text before the first separator |
| Text.BeforeFirst | index.js:55 | the text before the first separator holds no separator and is a prefix, followed by the separator when shorter than the text |
| Text.Join | src/index.js:136 | `parts.join(sep)`: the pieces with one separator between neighbours (inverse of Split by JoinSplit) |
| Text.SplitTailJoin | src/index.js:136 | `split(sep).slice(1).join(sep)` is exactly the text after the first separator, later separators kept |
| Text.AfterFirstOf | src/index.js:136 | for `p + sep + q` with no separator in `p`, the text after the first separator is `q` |
| Text.BeforeFirstPrefix | index.js:55 | for `p + sep + q` with no separator in `p`, the text before the first separator is `p` |
| Text.AfterFirstColon | index.js:127 | the argument extraction of both variants equals the reference "after the first colon" |
| Text.CommandArgument | src/index.js:136 | the command argument of both variants (also index.js:127 and :135) is the text after the first colon, trimmed (evaluated by PrefixedArgument) |
| Text.PrefixedArgument | src/index.js:136 | for `word + ":" + q` in any letter case, the lower-cased text starts with `word:` and the argument is `q` trimmed, colons in `q` kept |
| Text.ReplaceFirst | index.js:55 | `replace("T", " ")` replaces only the first occurrence and keeps the length |
| Text.ReplaceEach | index.js:238 | `replace(/[:.]/g, "-")` replaces every colon and dot, keeps every other character and the length |
| SponsorTable.WelcomeText | src/index.js:92 | the text sent when a code is accepted, naming the phone it was issued for |
| SponsorTable.Instructions | src/index.js:224 | the instructions returned with a new code, quoting that code |
| SponsorTable.Find | src/index.js:88 | `pendingConnections.get(code)`: the value of the first entry holding the code, or nothing (characterised by FindSpec and FindUnique) |
| SponsorTable.Delete | src/index.js:90 | `pendingConnections.delete(code)`: the entries without the one holding the code, order kept (characterised by DeleteMembers and FindDelete) |
| SponsorTable.Set | src/index.js:212-216 | `pendingConnections.set(code, p)`: overwrites the value in place when the code is present, else appends the pair (characterised by FindSet and SetMembers) |
| SponsorTable.Purged | src/index.js:205-207 | the entries the purge loop keeps: those with `now > expiry` false, order kept (characterised by PurgedMembers and FindPurged) |
| SponsorTable.Active | src/index.js:232-236 | the entries the listing loop pushes: those with `now < expiry`, order kept (characterised by ActiveMembers) |
| SponsorTable.Redeemable | src/index.js:89 | `connection && Date.now() < connection.expiry`: the code is present and `now` is before its expiry |
| SponsorTable.HasPhone | src/index.js:200 | `!phone` is false: a phone is present and non-empty |
| SponsorTable.FindSpec | src/index.js:88 | `get` returns a value that is stored under the code, and returns nothing only when no entry holds the code |
| SponsorTable.FindUnique | src/index.js:88 | with distinct keys, `get` returns the value of the one entry holding the code |
| SponsorTable.DistinctTail | src/index.js:27 | the tail of a Map's entries has distinct keys, none equal to the head's |
| SponsorTable.FromHeadAndTail | src/index.js:27 | an entry whose key is not in a distinct tail can head it |
| SponsorTable.DeleteMembers | src/index.js:90 | `delete` keeps exactly the entries holding another code |
| SponsorTable.DeleteConcat | src/index.js:90 | deleting from a concatenation deletes from both halves |
| SponsorTable.DeleteAbsent | src/index.js:90 | deleting an absent key changes nothing |
| SponsorTable.FindDelete | src/index.js:90 | after `delete(code)` the code is absent and every other key keeps its value |
| SponsorTable.DeleteKeepsDistinct | src/index.js:90 | `delete` keeps keys distinct |
| SponsorTable.FindSet | src/index.js:212-216 | after `set(code, p)` the code maps to `p` and every other key keeps its value |
| SponsorTable.SetMembers | src/index.js:212-216 | `set` adds no entry other than the new pair |
| SponsorTable.SetKeepsDistinct | src/index.js:212 | `set` keeps keys distinct, overwriting an existing key in place |
| SponsorTable.PurgedMembers | src/index.js:205-207 | the purge keeps exactly the entries for which `now > expiry` is false |
| SponsorTable.PurgedConcat | src/index.js:205-207 | purging a concatenation purges both halves |
| SponsorTable.PurgedKeepsDistinct | src/index.js:205-207 | the purge keeps keys distinct |
| SponsorTable.FindPurged | src/index.js:204-207 | after the purge, a code is absent exactly when it was absent or had `expiry < now`; otherwise it keeps its value |
| SponsorTable.CodeOnlyAt | src/index.js:27 | in a Map, no entry before or after a position holds that position's key |
| SponsorTable.PurgeStep | src/index.js:205-207 | one turn of the purge loop, deleting the current entry when `now > expiry`, extends the purged prefix by that entry |
| SponsorTable.PurgeDone | src/index.js:205-207 | after visiting every entry the table is the purge of the whole snapshot, with distinct keys |
| SponsorTable.ActiveMembers | src/index.js:232-236 | the listing holds exactly the entries with `now < expiry` |
| SponsorTable.ActiveConcat | src/index.js:232-236 | listing a concatenation lists both halves in order |
| SponsorTable.RedeemOnce | src/index.js:87-94 | once a code is redeemed it is never redeemable again, at any instant, and every other code keeps its value |
| SponsorTable.ExpiryBoundary | src/index.js:204-207 | at `now == expiry` a code is neither redeemable (line 89) nor listed (line 233), yet the purge keeps it |
| SponsorTable.ActiveAfterPurge | src/index.js:228-238 | the listing is the same whether or not a purge at the same instant ran first |
| SponsorTable.IssuedIsRedeemable | src/index.js:209-216 | a code issued at `t0` can be redeemed at any instant before `t0 + 600000`, and welcomes the phone it was issued for |
| SponsorTable.Table.constructor | src/index.js:27 | the Map starts empty |
| SponsorTable.Table.Redeem | src/index.js:87-100 | a present code with `now < expiry` is deleted, and only it, with the welcome naming its phone; otherwise the fixed refusal, with the table unchanged, even for an expired entry |
| SponsorTable.Table.Purge | src/index.js:204-207 | the delete-during-iteration loop leaves exactly the purged entries, in order, keys distinct |
| SponsorTable.Table.PurgeVisit | src/index.js:206 | one iteration: deletes the visited entry exactly when `now > expiry` |
| SponsorTable.Table.GenerateCode | src/index.js:197-226 | no phone: refusal, table unchanged; with a phone: purge, then the code maps to `{phone, issuedAt + 600000, timestamp}`, overwriting an equal code; the response carries the code, expiry and instructions |
| SponsorTable.Table.ActiveCodes | src/index.js:228-239 | returns exactly the entries with `now < expiry`, in Map order, and changes nothing |
| SponsorRouter.Classify | src/index.js:76-78 | an upsert whose message is absent or sent by the bot is ignored; otherwise its text is classified (characterised by IgnoredIffNoText) |
| SponsorRouter.IsCodeShaped | src/index.js:87 | `text.length === 6 && /^[A-Z0-9]{6}$/.test(text)`: six characters, each an upper-case ASCII letter or a digit, case-sensitive and untrimmed |
| SponsorRouter.ClassifyText | src/index.js:82-107 | first match: empty text, then a six-character `[A-Z0-9]` code, `ping`, `help`, the `summarize:` and `image:` prefixes, then the AI fallback (characterised by the lemmas below) |
| SponsorRouter.ProviderCall | src/index.js:135-154 | the provider helper a command calls and its argument; an empty argument calls nothing |
| SponsorRouter.Replies | src/index.js:103-154 | the texts sent for each command and provider outcome, in order |
| SponsorRouter.GetMessageText | src/index.js:115-119 | the text is the first non-empty of conversation, extended text and caption, and empty only when all three are |
| SponsorRouter.HandleUpsert | src/index.js:76-112 | a code attempt redeems as `Redeem` does; any other message leaves the table unchanged and sends the command's replies |
| SponsorRouter.CodeShapedOnlyRedeems | src/index.js:87-101 | text is a code attempt exactly when it is six characters of `[A-Z0-9]`, and the attempt is for that text |
| SponsorRouter.LowerCodeIsChat | src/index.js:87-107 | the code test is case-sensitive: a code with a letter, sent in lower case, is not a code attempt, matches no command and goes to the AI fallback |
| SponsorRouter.SpacedCodeIsChat | src/index.js:87-107 | the code test does not trim: a code sent behind a space is not a code attempt, matches no command and goes to the AI fallback |
| SponsorRouter.PingClassified | src/index.js:103 | text lower-casing to `ping` gets only "pong 🏓", with no provider call |
| SponsorRouter.HelpClassified | src/index.js:104 | text lower-casing to `help` gets only the help text, with no provider call |
| SponsorRouter.IgnoredIffNoText | src/index.js:76-83 | an upsert is ignored exactly when its message is absent, from the bot, or without text |
| SponsorRouter.ChatClassified | src/index.js:82-107 | the AI fallback is reached exactly by non-empty text that is neither a code nor a command, and carries the whole untrimmed text |
| SponsorRouter.BlankReachesAI | src/index.js:82-107 | text made only of whitespace is not ignored but sent whole to the AI |
| SponsorRouter.SummarizeArgument | src/index.js:135-137 | `summarize:` in any case followed by `q` summarizes `q` trimmed, colons in `q` kept |
| SponsorRouter.ImageArgument | src/index.js:143-145 | `image:` in any case followed by `q` generates from `q` trimmed, colons in `q` kept |
| SponsorRouter.SummarizePrefixClassified | src/index.js:103-107 | any text whose lower case starts with `summarize:` is a summarize command |
| SponsorRouter.ImagePrefixClassified | src/index.js:103-107 | any text whose lower case starts with `image:` is an image command |
| SponsorRouter.NoCallNoProvider | src/index.js:103-104 | a command without a provider call sends at most one reply, the same for every outcome |
| SponsorRouter.EmptyArgumentIsSilent | src/index.js:135-149 | an empty summarize or image argument sends nothing and calls no provider |
| SponsorRouter.WorkingThenResult | src/index.js:135-149 | a non-empty argument goes verbatim to one provider call, followed by the working notice and the header plus result |
| SponsorRouter.ChatRepliesIffNonEmpty | src/index.js:151-154 | the AI fallback replies exactly when the model's text is non-empty, and with that text |
| SponsorRouter.GeminiSummary | src/index.js:156-164 | the summary is never empty: the model's text, or a fixed text for a missing key, an error or an empty answer |
| SponsorRouter.GeminiReply | src/index.js:166-176 | the reply is empty exactly when the model answered with empty text, and is that text when it answered |
| SponsorRouter.FluxImage | src/index.js:178-190 | the image reply is never empty: the URL, or a fixed text for a missing key, an error or no URL |
| SponsorRouter.ShouldReconnect | src/index.js:66 | reconnect unless the status code is 401; an absent status reconnects |
| SponsorRouter.ReconnectScheduled | src/index.js:65-67 | a reconnect is scheduled exactly on a `close` whose status is not 401; a `close` with status 401 (a logout) schedules nothing |
| SponsorRouter.SponsorCode | src/index.js:30-32 | the code has at most six characters |
| SponsorRouter.SponsorCodePadded | src/index.js:30-32 | the padded code has exactly six characters |
| SponsorRouter.ShortSponsorCodeUnredeemable | src/index.js:30-32 | when the random number's base-36 text is shorter than eight characters, the code is shorter than six and sending it is never a code attempt |
| SponsorRouter.HalfGivesOneLetterCode | src/index.js:30-32 | `Math.random()` = 0.5 ("0.i") gives the code "I", which is routed to the AI |
| SponsorRouter.PaddedSponsorCodeRedeemable | src/index.js:30-32 | every padded code is six characters of `[A-Z0-9]` and is a code attempt for itself |
| Bot.Body | index.js:111 | `msg.body?.trim() \|\| ""`: the trimmed body, empty when absent |
| Bot.Route | index.js:111-149 | the handler's decision on a message: the routing of its trimmed body |
| Bot.RouteText | index.js:112-149 | first match on the lower-cased body: `ping`, `help`/`aide`, the `summarize:` and `image:` prefixes, then the AI fallback for a non-empty body (characterised by the lemmas below) |
| Bot.ProviderCall | index.js:126-148 | the provider helper a command calls and its argument; an empty argument calls nothing |
| Bot.Replies | index.js:114-149 | the texts sent for each command and provider outcome, in order |
| Bot.LogTimestamp | index.js:55 | `toISOString().replace("T", " ").split(".")[0]` (evaluated by LogTimestampOfIso) |
| Bot.LogFileName | index.js:72 | `okibot-` + the first ten characters of the ISO timestamp + `.log` (related to the log timestamp by LogFileMatchesTimestamp) |
| Bot.OpenRouterSummary | index.js:182-198 | the summary is never empty: the model's text, "Aucun résumé reçu." for an empty answer, "Erreur lors du résumé." on error, "❌ Clé OpenRouter manquante." without a key |
| Bot.OpenRouterReply | index.js:201-223 | the reply is empty exactly when the model answered with empty text; fixed texts for a missing key and an error |
| Bot.ImageResult | index.js:226-234 | "Image générée : " plus the URL, or the placeholder URL when none, exactly on success; the handler's error text on a missing key or an error |
| Bot.PingAnswered | index.js:111-114 | a body that trims and lower-cases to `ping` gets only "pong ✅", with no provider call |
| Bot.HelpAnswered | index.js:116-124 | `help` or `aide` in any case gets exactly the command list, with no provider call |
| Bot.IgnoredIffBlank | index.js:146-149 | a message gets no handling exactly when its body is absent or all whitespace |
| Bot.RouteTextIgnored | index.js:146 | after trimming, only the empty body is ignored |
| Bot.ChatGetsWholeBody | index.js:146-148 | the AI fallback is called with the whole trimmed body, never empty |
| Bot.RouteTextChat | index.js:146-148 | a fallback command carries the body it was routed from, which is not empty |
| Bot.ChatRouted | index.js:146-148 | the AI fallback is reached exactly by a non-empty trimmed body that is not `ping`, `help` or `aide` and starts with neither prefix, so no such body is dropped; it carries that body |
| Bot.SummarizeArgument | index.js:126-127 | a body trimming to `summarize:` (any case) plus `q` summarizes `q` trimmed, colons in `q` kept |
| Bot.SummarizeTextArgument | index.js:126-127 | the same for a body that is already trimmed |
| Bot.ImageArgument | index.js:134-135 | a body trimming to `image:` (any case) plus `q` generates from `q` trimmed, colons in `q` kept |
| Bot.ImageTextArgument | index.js:134-135 | the same for a body that is already trimmed |
| Bot.SummarizePrefixRouted | index.js:126 | any body whose lower case starts with `summarize:` is a summarize command |
| Bot.ImagePrefixRouted | index.js:134 | any body whose lower case starts with `image:` is an image command |
| Bot.EmptyArgumentGetsUsage | index.js:126-136 | an empty summarize or image argument gets only its usage text, with no provider call |
| Bot.NoCallNoProvider | index.js:114-124 | a command without a provider call sends at most one reply, the same for every outcome |
| Bot.WorkingThenResult | index.js:129-140 | a non-empty argument goes verbatim to one provider call, followed by exactly two replies: the working notice, then the result |
| Bot.ChatRepliesIffNonEmpty | index.js:146-149 | the AI fallback replies exactly when the model's result is non-empty, and with that result |
| Bot.IsIsoTimestamp | index.js:55 | the shape `toISOString` gives for a four-digit year (assumed also at index.js:72 and 238): `YYYY-MM-DDTHH:mm:ss.sssZ`, 24 characters, digits everywhere but the fixed separators |
| Bot.BackupName | index.js:238 | `session-` + timestamp + `.zip`, with no colon anywhere and no dot before the extension |
| Bot.AutoExportSession | index.js:236-238 | no archive exactly when the auth directory is missing; otherwise the backup name |
| Bot.BackupNameInjective | index.js:238 | two ISO timestamps give the same archive name only when they are equal |
| Bot.IsoSpaced | index.js:55 | in an ISO timestamp, `replace("T", " ")` changes only the date-time separator |
| Bot.LogTimestampOfIso | index.js:55 | for an ISO timestamp the log timestamp is `YYYY-MM-DD HH:mm:ss` |
| Bot.LogFileMatchesTimestamp | index.js:72 | the log file `okibot-<date>.log` is named after the date in the line's timestamp |

## Left out

- The WhatsApp transports, QR codes, credential saving and `sendMessage`/`msg.reply` are not modelled. Neither are the Express routes and HTML, the HTTP requests to Gemini, OpenRouter and Flux, zip streaming, `fs` and console output. Each is I/O or a foreign library call. Replies are modelled as the list of texts sent, in order.
- Send failures are not modelled, because they are I/O. In `src/index.js` every send is awaited, so a failed send is caught and logged at lines 109-111 and cuts the reply list short. In `index.js` only the awaited sends at lines 129, 137 and 148 are caught and logged (lines 150-152). The other sends (lines 114, 117, 128, 131, 136, 140 and 142) are returned without `await`, so a failed one escapes both `catch` blocks and surfaces as an unhandled rejection of the listener. The model does not capture that difference.
- The prompts the provider helpers build around their argument (e.g. "Résume en français: …") are not modelled, because they only reach the provider. The model records which helper is called and with what argument.
- The timers are not modelled: the 5-second reconnect delays, the keep-alive interval and the unconditional reconnect of the whatsapp-web.js `disconnected` handler (index.js:103-106). Only the decision of src/index.js:65-67 is modelled.
- `toLocaleString` and `toLocaleTimeString` are locale-dependent formatting. The entry timestamp is a parameter, and the response carries the numeric expiry instant.
- `Math.random()` and `Date.now()` are parameters. `/generate-code` reads the clock twice (lines 204 and 210), so `GenerateCode` takes both readings.
- `SponsorTable.Table.GenerateCode`: the phone is `Option<string>`. Truthiness is modelled only for strings, where absent or empty is falsy; a JSON body whose `phone` is a number or a boolean is not modelled.
- `SponsorRouter.Classify`: only the first message of an upsert is modelled. An upsert with an empty `messages` array is not.
- `Text.ToLower`: ASCII letters only. As argued above, this changes no routing decision.
- `Bot.IsIsoTimestamp`: covers four-digit years only. `toISOString` writes years outside 0-9999 with six digits and a sign.
- The log line's colour and its `[type] msg` part are not modelled, because they are console output. Only the timestamp and the file name are modelled.
- `WELCOME_TEXT` (index.js:36) is never used, `isReady` (src/index.js:43, 70) is never read, and there is no session-restore path. None of them is modelled.

## Findings

| source | as written | input that shows it | evidently intended | confidence | as-written member | corrected member |
|---|---|---|---|---|---|---|
| src/index.js:30-32 | `Math.random().toString(36).substring(2, 8).toUpperCase()` has fewer than six characters when the base-36 text of the random number has fewer than six digits after "0." | `Math.random()` returning 0.5, whose base-36 text is "0.i", gives the code "I". The redeem branch needs exactly six characters of `[A-Z0-9]`, so sending "I" goes to the AI and the code can never be used | a code of exactly six characters | high that it can happen, rarely in practice; not executed | SponsorRouter.ShortSponsorCodeUnredeemable, SponsorRouter.HalfGivesOneLetterCode | SponsorRouter.PaddedSponsorCodeRedeemable |
