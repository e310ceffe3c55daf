/** The moderation commands `kick`, `tempban` and the shared helper
    `ban_user`: the checks they run before acting, in the order they run
    them, the replies they send, and the guild's list of current tempbans.
    Discord itself is not modelled: whether the author may act on the
    target by the role hierarchy, the roles' positions, whether a user is
    already banned, and how the kick or ban request ended are inputs. */
module Moderation {
  import opened Wrappers
  import opened Numerals
  import opened Templates

  // The replies the commands send.

  const SelfHarm: string := "I cannot let you do that. Self-harm is bad \U{1F614}"
  const NotHigher: string := "I cannot let you do that. You are not higher than the user in the role hierarchy."
  const DiscordRules: string := "I cannot do that due to Discord hierarchy rules."
  const InvalidDays: string := "Invalid days. Must be between 0 and 7."
  const NotAllowed: string := "I'm not allowed to do that."
  const Unexpected: string := "An unexpected error occurred."
  const TempbanForbidden: string := "I can't do that for some reason."
  const TempbanFailed: string := "Something went wrong while banning."

  function AlreadyBanned(id: nat): string
  {
    "User with ID " + Digits(id) + " is already banned."
  }

  function Upgraded(id: nat): string
  {
    "User with ID " + Digits(id) + " was upgraded from a temporary to a permanent ban."
  }

  function UserNotFound(id: nat): string
  {
    "User with ID " + Digits(id) + " not found"
  }

  // The success templates a guild starts with.

  const DefaultKickMessage: string := "Done. That felt good."
  const DefaultBanMessage: string := "Done. That felt good."
  const DefaultTempbanMessage: string := "Done. Enough chaos for now."

  /** A guild member: its ID, how it prints, the position of its top role
      and whether it owns the guild. */
  datatype Member = Member(id: nat, display: string, topRole: int, isOwner: bool)

  function AsValue(m: Member): Value
  {
    Obj(m.id, m.display)
  }

  /** A reason that was not given prints as Python's `None`. */
  function ReasonValue(reason: Option<string>): Value
  {
    match reason
    case None => NoneValue
    case Some(t) => Text(t)
  }

  /** How the Discord request (kick or ban) ended. */
  datatype Outcome = Succeeded | Forbidden | NotFound | HttpError | OtherError

  predicate ValidDays(days: int)
  {
    0 <= days <= 7
  }

  /** The refusal chain `kick`, `tempban` and `ban_user` run against a
      member: self-action first, then the role hierarchy between author and
      member (`allowed`), then the bot's own top role and the guild owner. */
  function HierarchyCheck(author: Member, member: Member, allowed: bool, botTopRole: int): (refusal: Option<string>)
    ensures refusal.None? <==> author.id != member.id && allowed && member.topRole < botTopRole && !member.isOwner
    ensures author.id == member.id ==> refusal == Some(SelfHarm)
    ensures author.id != member.id && !allowed ==> refusal == Some(NotHigher)
    ensures author.id != member.id && allowed && (botTopRole <= member.topRole || member.isOwner) ==> refusal == Some(DiscordRules)
    ensures refusal.Some? ==> refusal.value in {SelfHarm, NotHigher, DiscordRules}
  {
    if author.id == member.id then Some(SelfHarm)
    else if !allowed then Some(NotHigher)
    else if botTopRole <= member.topRole || member.isOwner then Some(DiscordRules)
    else None
  }

  /** The objects a kick template can name. */
  function KickObjects(author: Member, member: Member, reason: Option<string>, guild: Value): (objects: Context)
    ensures objects.Keys == {"user", "moderator", "reason", "guild"}
    ensures objects["reason"] == ReasonValue(reason)
  {
    map["user" := AsValue(member), "moderator" := AsValue(author), "reason" := ReasonValue(reason), "guild" := guild]
  }

  /** The target of `ban_user`: a member of the guild, or any other user,
      known only by ID. */
  datatype Target = InGuild(member: Member) | Elsewhere(id: nat, display: string)

  function TargetId(t: Target): nat
  {
    match t
    case InGuild(m) => m.id
    case Elsewhere(id, _) => id
  }

  function TargetValue(t: Target): Value
  {
    match t
    case InGuild(m) => AsValue(m)
    case Elsewhere(id, display) => Obj(id, display)
  }

  /** The objects a ban template can name. */
  function BanObjects(author: Member, target: Target, reason: Option<string>, guild: Value, days: int): (objects: Context)
    ensures objects.Keys == {"user", "moderator", "reason", "guild", "days"}
    ensures objects["reason"] == ReasonValue(reason)
  {
    map["user" := TargetValue(target), "moderator" := AsValue(author), "reason" := ReasonValue(reason),
        "guild" := guild, "days" := Int(days)]
  }

  /** The objects a tempban template can name. */
  function TempbanObjects(author: Member, member: Member, reason: Option<string>, guild: Value, duration: Value, days: int): (objects: Context)
    ensures objects.Keys == {"user", "moderator", "reason", "guild", "duration", "days"}
    ensures objects["reason"] == ReasonValue(reason)
  {
    map["user" := AsValue(member), "moderator" := AsValue(author), "reason" := ReasonValue(reason),
        "guild" := guild, "duration" := duration, "days" := Int(days)]
  }

  /** What `ban_user` decides before it asks Discord for anything. */
  datatype BanPlan = Refuse(message: string) | Upgrade | Attempt

  function PlanBan(days: int, author: Member, target: Target, allowed: bool, botTopRole: int,
                   alreadyBanned: bool, tempbans: seq<nat>): (p: BanPlan)
    ensures !ValidDays(days) ==> p == Refuse(InvalidDays)
    ensures p.Upgrade? <==> ValidDays(days) && target.Elsewhere? && alreadyBanned && target.id in tempbans
    ensures p.Attempt? <==> ValidDays(days) && (if target.InGuild? then HierarchyCheck(author, target.member, allowed, botTopRole).None? else !alreadyBanned)
    ensures ValidDays(days) && target.Elsewhere? && alreadyBanned && target.id !in tempbans ==> p == Refuse(AlreadyBanned(target.id))
    ensures ValidDays(days) && target.InGuild? && HierarchyCheck(author, target.member, allowed, botTopRole).Some?
            ==> p == Refuse(HierarchyCheck(author, target.member, allowed, botTopRole).value)
  {
    if !ValidDays(days) then Refuse(InvalidDays)
    else
      match target
      case InGuild(member) =>
        (match HierarchyCheck(author, member, allowed, botTopRole)
         case Some(m) => Refuse(m)
         case None => Attempt)
      case Elsewhere(id, _) =>
        if !alreadyBanned then Attempt
        else if id in tempbans then Upgrade
        else Refuse(AlreadyBanned(id))
  }

  /** The reply of `ban_user` once the ban request to Discord has ended. */
  function BanReply(outcome: Outcome, id: nat, template: string, objects: Context, attrs: Attributes): (reply: (bool, string))
    ensures reply.0 <==> outcome == Succeeded
  {
    match outcome
    case Succeeded => (true, Render(template, objects, attrs))
    case Forbidden => (false, NotAllowed)
    case NotFound => (false, UserNotFound(id))
    case _ => (false, Unexpected)
  }

  /** The reply of `tempban` once the ban request to Discord has ended; an
      error that is not an HTTP error escapes the command, which then
      replies nothing. */
  function TempbanReply(outcome: Outcome, template: string, objects: Context, attrs: Attributes): (reply: Option<string>)
    ensures reply.None? <==> outcome == OtherError
  {
    match outcome
    case Succeeded => Some(Render(template, objects, attrs))
    case Forbidden => Some(TempbanForbidden)
    case NotFound => Some(TempbanFailed)
    case HttpError => Some(TempbanFailed)
    case OtherError => None
  }

  /** What `tempban` refuses before it records the tempban: the member
      chain first, the days bound only after it. */
  function TempbanRefusal(author: Member, member: Member, allowed: bool, botTopRole: int, days: int): (refusal: Option<string>)
    ensures refusal.None? <==> HierarchyCheck(author, member, allowed, botTopRole).None? && ValidDays(days)
    ensures HierarchyCheck(author, member, allowed, botTopRole).Some? ==> refusal == HierarchyCheck(author, member, allowed, botTopRole)
    ensures HierarchyCheck(author, member, allowed, botTopRole).None? && !ValidDays(days) ==> refusal == Some(InvalidDays)
  {
    match HierarchyCheck(author, member, allowed, botTopRole)
    case Some(m) => Some(m)
    case None => if ValidDays(days) then None else Some(InvalidDays)
  }

  /** `tempban` as the source is written. Past the member chain it computes
      the unban time with `datetime.now(datetime.timezone.utc)`, where
      `datetime` is the class, which has no `timezone` attribute; the error
      escapes the command before the days are checked, anything is recorded
      or a ban is requested. So the only replies it ever sends are the
      chain's refusals. */
  function TempbanAsWrittenReply(author: Member, member: Member, allowed: bool, botTopRole: int): (reply: Option<string>)
    ensures reply.Some? <==> HierarchyCheck(author, member, allowed, botTopRole).Some?
    ensures reply.Some? ==> reply.value in {SelfHarm, NotHigher, DiscordRules}
  {
    HierarchyCheck(author, member, allowed, botTopRole)
  }

  /** The days `tempban` uses: the argument, or the guild's default. */
  function ResolvedDays(days: Option<int>, defaultDays: int): int
  {
    match days
    case Some(d) => d
    case None => defaultDays
  }

  /** Where the first occurrence of `x` in `s` is. */
  function FirstIndex(s: seq<nat>, x: nat): (k: nat)
    requires x in s
    ensures k < |s| && s[k] == x && x !in s[..k]
  {
    if s[0] == x then 0
    else
      var k := 1 + FirstIndex(s[1..], x);
      assert s[..k] == [s[0]] + s[1..][..k - 1];
      k
  }

  /** Python's `list.remove`: drops the first occurrence of `x`. */
  function RemoveFirst(s: seq<nat>, x: nat): (r: seq<nat>)
    requires x in s
    ensures |r| == |s| - 1
    ensures r == s[..FirstIndex(s, x)] + s[FirstIndex(s, x) + 1..]
  {
    if s[0] == x then s[1..]
    else
      var r := [s[0]] + RemoveFirst(s[1..], x);
      var k := FirstIndex(s[1..], x);
      assert s[..k + 1] == [s[0]] + s[1..][..k];
      assert s[k + 2..] == s[1..][k + 1..];
      r
  }

  /** Removing takes exactly one copy of `x` away and keeps everything else. */
  lemma {:induction false} RemoveFirstCounts(s: seq<nat>, x: nat)
    requires x in s
    ensures multiset(RemoveFirst(s, x)) == multiset(s) - multiset{x}
  {
    assert s == [s[0]] + s[1..];
    if s[0] != x {
      RemoveFirstCounts(s[1..], x);
      assert RemoveFirst(s, x) == [s[0]] + RemoveFirst(s[1..], x);
    } else {
      assert RemoveFirst(s, x) == s[1..];
    }
  }

  /** A guild's moderation settings and its list of users under a tempban. */
  class GuildConfig {
    const kickMessage: string
    const banMessage: string
    const tempbanMessage: string
    const defaultDays: int
    var currentTempbans: seq<nat>

    /** A guild with the templates its operators wrote and no tempbans. */
    constructor (kickMessage: string, banMessage: string, tempbanMessage: string, defaultDays: int)
      ensures this.kickMessage == kickMessage && this.banMessage == banMessage
      ensures this.tempbanMessage == tempbanMessage && this.defaultDays == defaultDays
      ensures currentTempbans == []
    {
      this.kickMessage := kickMessage;
      this.banMessage := banMessage;
      this.tempbanMessage := tempbanMessage;
      this.defaultDays := defaultDays;
      currentTempbans := [];
    }

    /** A guild with the default templates and no tempbans. */
    constructor Defaults(defaultDays: int)
      ensures kickMessage == DefaultKickMessage && banMessage == DefaultBanMessage
      ensures tempbanMessage == DefaultTempbanMessage && this.defaultDays == defaultDays
      ensures currentTempbans == []
    {
      kickMessage := DefaultKickMessage;
      banMessage := DefaultBanMessage;
      tempbanMessage := DefaultTempbanMessage;
      this.defaultDays := defaultDays;
      currentTempbans := [];
    }

    /** `kick`: the reply, if any. A refused kick names the first failed
        check; a kick Discord forbids says so; any other failure is only
        logged; a kick that went through renders the guild's template. */
    method Kick(author: Member, member: Member, allowed: bool, botTopRole: int, reason: Option<string>,
                guild: Value, outcome: Outcome, attrs: Attributes) returns (reply: Option<string>)
      ensures HierarchyCheck(author, member, allowed, botTopRole).Some? ==> reply == HierarchyCheck(author, member, allowed, botTopRole)
      ensures reply.None? <==> HierarchyCheck(author, member, allowed, botTopRole).None? && outcome !in {Succeeded, Forbidden}
      ensures HierarchyCheck(author, member, allowed, botTopRole).None? && outcome == Forbidden ==> reply == Some(NotAllowed)
      ensures HierarchyCheck(author, member, allowed, botTopRole).None? && outcome == Succeeded
              ==> reply == Some(Render(kickMessage, KickObjects(author, member, reason, guild), attrs))
    {
      var refusal := HierarchyCheck(author, member, allowed, botTopRole);
      if refusal.Some? {
        return refusal;
      }
      match outcome {
        case Succeeded =>
          var text := TransformMessage(kickMessage, KickObjects(author, member, reason, guild), attrs);
          reply := Some(text);
        case Forbidden =>
          reply := Some(NotAllowed);
        case _ =>
          reply := None;
      }
    }

    /** `tempban` as written: it sends the chain's refusal, or nothing at
        all, because the unban time cannot be computed (see
        `TempbanAsWrittenReply`). It never changes the tempban list. */
    method TempbanAsWritten(author: Member, member: Member, allowed: bool, botTopRole: int)
      returns (reply: Option<string>)
      ensures reply == TempbanAsWrittenReply(author, member, allowed, botTopRole)
    {
      var refusal := HierarchyCheck(author, member, allowed, botTopRole);
      if refusal.Some? {
        return refusal;
      }
      // Computing the unban time raises here, and the command ends.
      reply := None;
    }

    /** `tempban` as evidently intended, with the unban time computed in
        UTC: refuses by the member chain, then by the days bound; otherwise
        records the member's ID before the ban is requested, so the ID stays
        recorded whether or not the ban goes through. */
    method Tempban(author: Member, member: Member, allowed: bool, botTopRole: int, days: Option<int>,
                   duration: Value, reason: Option<string>, guild: Value, outcome: Outcome, attrs: Attributes)
      returns (reply: Option<string>)
      modifies this
      ensures var d := ResolvedDays(days, defaultDays);
        var refusal := TempbanRefusal(author, member, allowed, botTopRole, d);
        (refusal.Some? ==> reply == refusal && currentTempbans == old(currentTempbans))
        && (refusal.None? ==>
              currentTempbans == old(currentTempbans) + [member.id]
              && reply == TempbanReply(outcome, tempbanMessage, TempbanObjects(author, member, reason, guild, duration, d), attrs))
    {
      var refusal := HierarchyCheck(author, member, allowed, botTopRole);
      if refusal.Some? {
        return refusal;
      }
      var d := ResolvedDays(days, defaultDays);
      if !ValidDays(d) {
        return Some(InvalidDays);
      }
      currentTempbans := currentTempbans + [member.id];
      match outcome {
        case Succeeded =>
          var text := TransformMessage(tempbanMessage, TempbanObjects(author, member, reason, guild, duration, d), attrs);
          reply := Some(text);
        case Forbidden =>
          reply := Some(TempbanForbidden);
        case NotFound =>
          reply := Some(TempbanFailed);
        case HttpError =>
          reply := Some(TempbanFailed);
        case OtherError =>
          reply := None;
      }
    }

    /** `ban_user`: whether the ban (or upgrade) happened, and the message.
        A user already banned and listed as tempbanned is upgraded to a
        permanent ban by dropping one copy of its ID from the list, without
        a new ban request. */
    method BanUser(author: Member, target: Target, days: int, reason: Option<string>, allowed: bool,
                   botTopRole: int, alreadyBanned: bool, guild: Value, outcome: Outcome, attrs: Attributes)
      returns (ok: bool, message: string)
      modifies this
      ensures var plan := PlanBan(days, author, target, allowed, botTopRole, alreadyBanned, old(currentTempbans));
        (plan.Refuse? ==> !ok && message == plan.message && currentTempbans == old(currentTempbans))
        && (plan.Upgrade? ==>
              ok && message == Upgraded(TargetId(target))
              && currentTempbans == RemoveFirst(old(currentTempbans), TargetId(target)))
        && (plan.Attempt? ==>
              currentTempbans == old(currentTempbans)
              && (ok, message) == BanReply(outcome, TargetId(target), banMessage, BanObjects(author, target, reason, guild, days), attrs))
    {
      if !ValidDays(days) {
        return false, InvalidDays;
      }
      var removedTemp := false;
      match target {
        case InGuild(member) =>
          var refusal := HierarchyCheck(author, member, allowed, botTopRole);
          if refusal.Some? {
            return false, refusal.value;
          }
        case Elsewhere(id, _) =>
          if alreadyBanned {
            if id in currentTempbans {
              currentTempbans := RemoveFirst(currentTempbans, id);
              removedTemp := true;
            } else {
              return false, AlreadyBanned(id);
            }
          }
      }
      if removedTemp {
        return true, Upgraded(TargetId(target));
      }
      match outcome {
        case Succeeded =>
          message := TransformMessage(banMessage, BanObjects(author, target, reason, guild, days), attrs);
          ok := true;
        case Forbidden =>
          ok, message := false, NotAllowed;
        case NotFound =>
          ok, message := false, UserNotFound(TargetId(target));
        case HttpError =>
          ok, message := false, Unexpected;
        case OtherError =>
          ok, message := false, Unexpected;
      }
    }
  }

  /** `ban_user` bounds the days before it looks at the target at all, while
      `tempban` runs the member chain first: a moderator who bans themself
      with 9 days is told the days are invalid by the one and that self-harm
      is bad by the other. */
  lemma CheckOrderDiffers(author: Member, allowed: bool, botTopRole: int, alreadyBanned: bool, tempbans: seq<nat>)
    ensures PlanBan(9, author, InGuild(author), allowed, botTopRole, alreadyBanned, tempbans) == Refuse(InvalidDays)
    ensures TempbanRefusal(author, author, allowed, botTopRole, 9) == Some(SelfHarm)
  {
  }

  /** The input that shows the unban-time error: a moderator tempbans a
      lower member for 9 days. As intended the command refuses the days;
      as written it sends nothing, and with any valid days it records and
      bans nobody. */
  lemma TempbanClockError()
    ensures var author, member := Member(1, "mod", 5, false), Member(2, "user", 1, false);
      TempbanAsWrittenReply(author, member, true, 10) == None
      && TempbanRefusal(author, member, true, 10, 9) == Some(InvalidDays)
      && TempbanRefusal(author, member, true, 10, 3) == None
  {
    var author, member := Member(1, "mod", 5, false), Member(2, "user", 1, false);
    assert HierarchyCheck(author, member, true, 10) == None;
  }

  /** An upgrade drops only one copy of the ID: an ID recorded twice (with
      the intended `tempban`, a tempban whose ban request failed, then
      another) is still listed. */
  lemma UpgradeKeepsSecondCopy(tempbans: seq<nat>, id: nat)
    requires multiset(tempbans)[id] >= 2
    ensures id in RemoveFirst(tempbans, id)
  {
    RemoveFirstCounts(tempbans, id);
    assert multiset(RemoveFirst(tempbans, id))[id] >= 1;
  }

  /** A template without braces comes out as written. */
  lemma BraceFreeUnchanged(t: string, objects: Context, attrs: Attributes)
    requires BraceFree(t)
    ensures Render(t, objects, attrs) == t
  {
    assert forall i :: 0 <= i < |t| ==> t[i] != '{';
    RenderPlain(t, objects, attrs);
  }

  lemma DefaultsBraceFree()
    ensures BraceFree(DefaultKickMessage) && BraceFree(DefaultTempbanMessage)
  {
  }

  /** The default templates mention no object, so each reply is the
      template itself. */
  lemma DefaultTemplatesUnchanged(objects: Context, attrs: Attributes)
    ensures Render(DefaultKickMessage, objects, attrs) == DefaultKickMessage
    ensures Render(DefaultBanMessage, objects, attrs) == DefaultBanMessage
    ensures Render(DefaultTempbanMessage, objects, attrs) == DefaultTempbanMessage
  {
    DefaultsBraceFree();
    BraceFreeUnchanged(DefaultKickMessage, objects, attrs);
    BraceFreeUnchanged(DefaultTempbanMessage, objects, attrs);
  }

  /** A template of brace-free text ending in one object name renders that
      object's text in its place. */
  lemma RenderTextThenName(prefix: string, name: string, objects: Context, attrs: Attributes)
    requires BraceFree(prefix) && |name| > 0 && BraceFree(name)
    requires name in objects && BraceFree(ToStr(objects[name]))
    ensures Render(prefix + Raw(name), objects, attrs) == prefix + ToStr(objects[name])
  {
    var ps := [Lit(prefix), Ph(name)];
    FlattenPair(Lit(prefix), Ph(name));
    assert ps[1..] == [Ph(name)] && ps[1..][1..] == [];
    assert Rendered([Ph(name)], objects, attrs) == ToStr(objects[name]) + Rendered([], objects, attrs);
    assert Rendered(ps, objects, attrs) == prefix + Rendered([Ph(name)], objects, attrs);
    RenderPieces(ps, objects, attrs);
  }

  /** A kick without a reason fills `{reason}` with the text "None". */
  lemma KickWithoutReason(prefix: string, author: Member, member: Member, guild: Value, attrs: Attributes)
    requires BraceFree(prefix)
    ensures Render(prefix + "{reason}", KickObjects(author, member, None, guild), attrs) == prefix + "None"
  {
    assert Raw("reason") == "{reason}";
    RenderTextThenName(prefix, "reason", KickObjects(author, member, None, guild), attrs);
  }

  /** A ban template's `{days}` becomes the decimal text of the days. */
  lemma BanShowsDays(prefix: string, author: Member, target: Target, reason: Option<string>, guild: Value, days: int, attrs: Attributes)
    requires BraceFree(prefix) && ValidDays(days)
    ensures Render(prefix + "{days}", BanObjects(author, target, reason, guild, days), attrs) == prefix + Digits(days)
  {
    var objects := BanObjects(author, target, reason, guild, days);
    var text := Digits(days);
    assert BraceFree(text) by {
      assert forall i :: 0 <= i < |text| ==> IsDigit(text[i]);
    }
    assert Raw("days") == "{days}";
    RenderTextThenName(prefix, "days", objects, attrs);
  }
}
