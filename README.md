# Moderation cog with custom messages: a Dafny model

This project models the self-contained logic of a Red-DiscordBot moderation
cog that lets a guild set its own success messages for `kick`, `ban` and
`tempban`. It covers three parts of `mod/mod.py`.

- **The placeholder renderer** (`Mod.transform_parameter` and
  `Mod.transform_message`). An operator writes a template such as
  `{user} was banned by {moderator}`. The renderer finds every `{…}` with
  `re.findall`. It resolves each expression against a small map of objects
  (a key, or `key.attribute` where the attribute does not start with `_`).
  It then replaces every occurrence of each placeholder in turn, falling
  back to the placeholder's own text when resolution fails.
- **The user-ID converter** (`RawUserIdConverter.convert`). It accepts a
  raw ID (15 to 20 leading digits) or a mention (`<@`, an optional `!`, 15
  to 21 digits, `>`, end of text), and refuses anything else.
- **The moderation checks.** These are the refusals `kick`, `tempban` and
  `ban_user` run before acting, and their order. The model also covers the
  replies each command sends and the guild's list of user IDs under a
  tempban: `tempban` is meant to append to it, and `ban_user` drops an ID
  when it upgrades a tempban to a permanent ban. As written, `tempban`
  stops with an error once the member chain passes (see "## Findings"), so
  the model carries both the command as written and as intended.

Files:

- `wrappers.dfy`: `Option` and `Result`.
- `numerals.dfy`: decimal text of numbers (Python `str(int)`) and the value
  of a run of digits (`int(...)`).
- `strings.dfy`: Python's `str.split` on one character and `str.replace`,
  with their laws.
- `templates.dfy`: the renderer. `TransformMessage` is the loop of the
  source. `Render` is the function that specifies it. `Rendered` is an
  independent piece-by-piece reference rendering, and `RenderPieces`
  proves that the two agree.
- `user_ids.dfy`: the converter and the exact sets of text it accepts.
- `moderation.dfy`: the check chain, the ban plan, the replies, and the
  class `GuildConfig`. Its `currentTempbans` field is the tempban list.
  Its methods `Kick`, `Tempban` and `BanUser` are the three commands.

Decisions:

- **Splitting a dotted expression.** `transform_parameter` splits with
  `str.split(".")`, and the code does not check the parts. An expression
  with one dot and an empty side, such as `user.` or `.name`, therefore
  reaches the attribute lookup. The model follows the code here.
- **The mention pattern's `$`.** Python's `$` also matches just before a
  final newline. So `<@` + digits + `>` + `"\n"` is accepted, and the model
  keeps that (`UserIds.AtEnd`).
- **Values and attributes.** Template objects are abstract `Value`s with a
  `ToStr` function that stands for Python's `str`. `getattr` is a finite
  map from (object, attribute name) to value. A missing `reason` is
  Python's `None`, which prints as `None`.

## Model

| member | source | states |
|---|---|---|
| Templates.TransformParameter | mod/mod.py:83-99 | unless the expression is itself a key, the result is its own fallback text or the text of an attribute without a leading `_`; the exact cases are `ParameterKeyFirst`, `ParameterNotOneDot` and `ParameterDotted` |
| Templates.Find | mod/mod.py:102 | the `re.findall` scan; each match takes at least three characters, and `FindSound` and `FindEmptyIff` state what it captures |
| Templates.ApplyAll | mod/mod.py:103-105 | the replacement steps in order, each replacing every occurrence in the current text; stated through `TransformMessage`, `RenderPieces` and `RenderFallback` |
| Templates.Render | mod/mod.py:101-106 | the function the loop is proved equal to; its properties are the `Render…` lemmas below |
| Templates.ParameterKeyFirst | mod/mod.py:88-90 | an expression that is itself a key resolves to that value's text, before any splitting on "." |
| Templates.ParameterNotOneDot | mod/mod.py:88-94 | an expression that is not a key and holds zero or several dots falls back to its own `{expr}` text |
| Templates.ParameterDotted | mod/mod.py:91-99 | for `first.second`: resolves to the attribute's text exactly when `first` is bound, `second` has no leading `_` and the attribute exists, and otherwise falls back to `{first.second}` |
| Templates.ParameterHidesPrivate | mod/mod.py:82-99 | two attribute tables that agree on all names without a leading `_` give the same resolution, so underscore attributes can never show |
| Templates.FindSound | mod/mod.py:102 | every expression the scan captures is non-empty, free of `}`, and its `{expr}` occurs in the message |
| Templates.FindEmptyIff | mod/mod.py:102 | the scan finds nothing exactly when the message holds no `{`, one or more non-`}` characters, `}` |
| Templates.TransformMessage | mod/mod.py:101-106 | the loop over the found expressions, each replacing all its occurrences in the current message, returns `Render` of the message |
| Templates.RenderFallback | mod/mod.py:101-106 | when every found expression falls back to its own text, the message comes back unchanged, and rendering it again changes nothing |
| Templates.RenderPlain | mod/mod.py:101-106 | a message without any placeholder is returned as written |
| Templates.RenderHidesPrivate | mod/mod.py:82-106 | a whole rendered message does not depend on underscore attributes |
| Templates.RenderPieces | mod/mod.py:101-106 | a template of brace-free text and brace-free placeholders renders piece by piece (each placeholder becomes its own resolution), provided each value is brace-free or its own fallback text |
| Templates.RenderRepeatedName | mod/mod.py:103-105 | both occurrences of one placeholder receive the same value |
| Templates.RenderSubstitutedTextIsRescanned | mod/mod.py:103-105 | replacement is sequential: a value that spells a later placeholder is itself rewritten, so `{a}{b}` and `{b}{a}` differ |
| Templates.RenderDottedFallback | mod/mod.py:91-106 | a dotted placeholder that falls back leaves the whole message unchanged |
| Templates.RenderMissingAttribute | mod/mod.py:95-106 | a dotted placeholder naming a missing attribute of a bound object is left as written |
| Templates.RenderPrivateAttribute | mod/mod.py:95-106 | a dotted placeholder naming an underscore attribute is left as written, whatever the attribute table holds |
| Strings.Split | mod/mod.py:92 | Python's `str.split` on one character: at least one part; `SplitCount`, `SplitJoin` and `SplitAtOnly` state the rest |
| Strings.ReplaceAll | mod/mod.py:105 | Python's `str.replace`; `ReplaceBySelf`, `ReplaceAbsent` and `ReplaceConcat` state its laws |
| Strings.SplitCount | mod/mod.py:92 | splitting on a character gives one more part than the character's occurrences |
| Strings.SplitJoin | mod/mod.py:92 | the parts rejoined with the character give back the text, and no part holds the character |
| Strings.SplitAtOnly | mod/mod.py:92 | text with exactly one separator splits into the two sides, empty sides included |
| Strings.ReplaceBySelf | mod/mod.py:105 | replacing a text by itself changes nothing |
| Strings.ReplaceAbsent | mod/mod.py:105 | replacing a text that does not occur changes nothing |
| Strings.ReplaceConcat | mod/mod.py:105 | replacement distributes over a concatenation when no occurrence straddles the seam |
| Numerals.Digits | mod/mod.py:537 | Python's `str` of an ID is a non-empty run of digits, and `ValueOfDigits` reads it back |
| Numerals.ValueOfDigits | mod/mod.py:40 | `int(...)` of the text of a number gives the number back |
| Numerals.ValueBound | mod/mod.py:40 | `int(...)` of k digits is below 10^k |
| UserIds.MatchId | mod/mod.py:19 | what the raw-ID pattern captures is 15 to 20 digits |
| UserIds.MatchMention | mod/mod.py:20 | what the mention pattern captures is 15 to 21 digits |
| UserIds.Convert | mod/mod.py:34-42 | an accepted argument gives an ID below 10^21, and a refused one raises the "doesn't look like a valid user ID" message quoting the argument |
| UserIds.ConvertId | mod/mod.py:39-40 | text starting with a run of 15 or more digits gives the number of its first min(run, 20) digits, whatever follows |
| UserIds.ConvertMention | mod/mod.py:39-40 | `<@`, optional `!`, 15 to 21 digits, `>`, then the end or a final newline gives the number of the digits |
| UserIds.ConvertOnlyIdsAndMentions | mod/mod.py:39-42 | every accepted argument is one of those two shapes, with the result its digits' number |
| UserIds.ConvertIdText | mod/mod.py:39-40 | round trip: the decimal text of any 15- to 20-digit ID, followed by text that does not start with a digit, converts back to the ID |
| UserIds.ConvertMentionText | mod/mod.py:39-40 | round trip: a mention, with or without `!`, of any 15- to 21-digit ID converts back to the ID |
| UserIds.ConvertRejectsShortNumber | mod/mod.py:39-42 | a number with fewer than 15 digits, such as "123", is refused |
| Moderation.HierarchyCheck | mod/mod.py:205-223 | a member passes exactly when it is not the author, the author is above it in the role hierarchy, the bot's top role is above it and it does not own the guild; self-action is reported first, then the hierarchy, then the bot's role or ownership, each with its own message |
| Moderation.PlanBan | mod/mod.py:486-540 | `ban_user` refuses days outside 0..7 before anything else; it upgrades exactly an already-banned non-member listed as tempbanned; an already-banned non-member not listed is refused as already banned; it attempts a ban exactly when a member passes the chain or a non-member is not banned; a member failing the chain is refused with the chain's message (self, then hierarchy, then bot role or owner) |
| Moderation.BanReply | mod/mod.py:555-581 | after a ban request `ban_user` reports success exactly when the request succeeded |
| Moderation.TempbanRefusal | mod/mod.py:300-329 | intended `tempban`: the member chain first and the days bound after it, going on exactly when both pass |
| Moderation.TempbanAsWrittenReply | mod/mod.py:300-322 | `tempban` as written replies exactly when the member chain refuses, and then only with one of the chain's messages |
| Moderation.TempbanClockError | mod/mod.py:322-329 | for a lower member and 9 days, the intended command refuses the days and accepts 3 days, while the command as written sends nothing |
| Moderation.ResolvedDays | mod/mod.py:324-325 | the days the intended `tempban` checks are the argument, or the guild's default when none is given; used by `GuildConfig.Tempban` |
| Moderation.KickObjects | mod/mod.py:262-267 | a kick template can name exactly `user`, `moderator`, `reason` and `guild`, and `reason` is Python's `None` when no reason was given |
| Moderation.BanObjects | mod/mod.py:563-569 | a ban template can name exactly `user`, `moderator`, `reason`, `guild` and `days` |
| Moderation.TempbanObjects | mod/mod.py:369-376 | a tempban template can name exactly `user`, `moderator`, `reason`, `guild`, `duration` and `days` |
| Moderation.TempbanReply | mod/mod.py:351-378 | after the ban request `tempban` replies unless the error was not an HTTP error |
| Moderation.RemoveFirst | mod/mod.py:532 | `list.remove` deletes the element at the first index holding the ID, so the list shrinks by one |
| Moderation.RemoveFirstCounts | mod/mod.py:532 | removing takes exactly one copy of the ID out of the list's multiset |
| Moderation.UpgradeKeepsSecondCopy | mod/mod.py:532 | an ID listed twice is still listed after an upgrade |
| Moderation.CheckOrderDiffers | mod/mod.py:300-329 | a moderator who bans themself with 9 days is told the days are invalid by `ban_user` but that self-harm is bad by `tempban` |
| Moderation.GuildConfig.constructor | mod/mod.py:108-120 | a guild holds the kick, ban and tempban templates its operators set, and an empty tempban list |
| Moderation.GuildConfig.Defaults | mod/mod.py:60-67 | a guild that set nothing holds the registered default templates and an empty tempban list |
| Moderation.GuildConfig.Kick | mod/mod.py:205-269 | `kick` replies with the first failed check; after a forbidden kick it says so; after any other error it replies nothing; after a kick it renders the guild's kick template with `user`, `moderator`, `reason`, `guild` |
| Moderation.GuildConfig.TempbanAsWritten | mod/mod.py:297-322 | `tempban` as written: the chain's refusal, or no reply once the chain passes; it never changes the tempban list |
| Moderation.GuildConfig.Tempban | mod/mod.py:297-378 | intended `tempban` (unban time computed in UTC): refuses (list unchanged) by `TempbanRefusal` with the days defaulted from the guild; otherwise it appends the member's ID before the ban request, whatever its outcome, and replies by `TempbanReply` with `duration` and `days` among the objects |
| Moderation.GuildConfig.BanUser | mod/mod.py:481-595 | `ban_user` follows `PlanBan` on the list as it was: a refusal changes nothing, an upgrade removes one copy of the ID and reports the upgrade without a ban request, an attempt leaves the list and replies by `BanReply` with `days` among the objects |
| Moderation.DefaultTemplatesUnchanged | mod/mod.py:60-67 | the default kick, ban and tempban templates name no object, so the reply is the template itself |
| Moderation.KickWithoutReason | mod/mod.py:262-268 | a kick without a reason fills `{reason}` with the text "None" |
| Moderation.BanShowsDays | mod/mod.py:563-570 | a ban template's `{days}` becomes the decimal text of the days |

## Left out

- Every call into Discord is an input rather than an action. This covers
  `guild.kick`, `guild.ban` and `guild.fetch_ban`, as well as direct
  messages, embeds and invites. The outcome of a kick or ban request is an
  `Outcome` parameter. Whether a non-member is already banned is a
  boolean. A `fetch_ban` error other than "not found" is not modelled.
- Sending a reply (`ctx.send`) is not modelled. The methods return the text
  that would be sent, or nothing.
- `is_allowed_by_hierarchy` is host library code; its answer is a boolean
  input. Roles are compared by an integer position. Members are equal when
  their IDs are.
- Guild settings storage is not modelled: the `modset` commands that change
  the templates, the settings display, and where settings live. The
  templates and the default days are given when a `GuildConfig` is made
  and do not change afterwards.
- The tempban's `banned_until` time, the default duration, `datetime` and
  `timedelta` are not modelled. The duration is an opaque value that a
  template can print.
- Mod-log cases (`modlog.create_case`, `create_modlog_case`, `ban_type`),
  audit-log reasons and logging are not modelled.
- The `softban` and `unban` commands are not modelled. They render their
  messages with the same `transform_message`.
- Python's `str` of arbitrary objects becomes `ToStr`. `getattr` on
  properties with side effects becomes an attribute map.
- Async execution is not modelled. In particular, two commands editing the
  tempban list at once are not modelled.
- The cog's data-deletion hooks and help-text formatting are not modelled.
- Moderation.GuildConfig.Tempban: models `tempban` as evidently intended,
  with the unban time computed in UTC. As written the command raises at
  mod/mod.py:322 for every call past the member chain, so it never checks
  the days, records the ID, requests the ban or replies.
  `GuildConfig.TempbanAsWritten` is the command as written.
- Moderation.TempbanRefusal: its days refusal belongs to the intended
  `tempban`; as written that check is never reached (see "## Findings").
- Templates.RenderPieces: stated for templates whose values are brace-free
  or fall back to their own text. Other values are covered by the general
  `Render` and its lemmas, not by the piecewise form.

## Findings

| source | as written | input that shows it | evidently intended | confidence | as-written member | corrected member |
|---|---|---|---|---|---|---|
| mod/mod.py:322 | `datetime.now(datetime.timezone.utc)`, where `datetime` is the class imported at mod/mod.py:4, which has no `timezone` attribute, so the line raises `AttributeError` | any `tempban` whose member passes the chain, e.g. a moderator at role 5 tempbans a member at role 1 (bot at role 10) for 9 days: no reply, nothing recorded, no ban | the current UTC time (`datetime.now(timezone.utc)`), after which the days are checked, the ID recorded and the ban requested | high, not executed | Moderation.GuildConfig.TempbanAsWritten, Moderation.TempbanClockError | Moderation.GuildConfig.Tempban |
