/**
 * The Message record of src/models/Message.js: its fields, which of them are
 * required, their defaults, and how the schema casts the values it is given.
 */
module MessageModel {
  import opened Wrappers
  import opened Json

  predicate IsLowerHex(c: char) { '0' <= c <= '9' || 'a' <= c <= 'f' }

  predicate IsHex(c: char) { IsLowerHex(c) || 'A' <= c <= 'F' }

  /** Text that casts to an ObjectId: 24 hexadecimal digits of either case. */
  predicate IsObjectIdText(s: string)
  {
    |s| == 24 && forall i :: 0 <= i < |s| ==> IsHex(s[i])
  }

  /** The canonical text of an ObjectId: 24 lower-case hexadecimal digits. */
  predicate IsObjectId(s: string)
  {
    |s| == 24 && forall i :: 0 <= i < |s| ==> IsLowerHex(s[i])
  }

  /** A user's identity, the canonical text of the user's ObjectId. */
  type UserId = s: string | IsObjectId(s) witness "000000000000000000000000"

  function LowerHex(c: char): (r: char)
    requires IsHex(c)
    ensures IsLowerHex(r)
    ensures IsLowerHex(c) ==> r == c
  {
    if 'A' <= c <= 'F' then c - 'A' + 'a' else c
  }

  /** The ObjectId that the text `s` casts to, as it reads back from the store. */
  function Canonical(s: string): (r: UserId)
    requires IsObjectIdText(s)
    ensures forall i :: 0 <= i < 24 ==> r[i] == LowerHex(s[i])
    ensures IsObjectId(s) ==> r == s
  {
    seq(24, i requires 0 <= i < 24 => LowerHex(s[i]))
  }

  /** Casting a value to an ObjectId path: `None` when it is missing, null or not castable. */
  function CastObjectId(v: Option<Json>): (r: Option<UserId>)
    ensures r.Some? <==> v.Some? && v.value.JStr? && IsObjectIdText(v.value.s)
    ensures r.Some? ==> r.value == Canonical(v.value.s)
  {
    if v.Some? && v.value.JStr? && IsObjectIdText(v.value.s) then Some(Canonical(v.value.s)) else None
  }

  /** How a String path casts a value that is present and not null. */
  datatype StringCast = Cast(text: string) | CastFailed

  function CastString(v: Json): (r: StringCast)
    requires !v.JNull?
    ensures r.CastFailed? <==> v.JArray? || v.JObject?
    ensures v.JStr? ==> r == Cast(v.s)
  {
    match v
    case JStr(s) => Cast(s)
    case JNum(n) => Cast(IntToDecimal(n))
    case JBool(b) => Cast(if b then "true" else "false")
    case _ => CastFailed
  }

  /** A stored message. `None` in `contentType`, `deliveredAt` or `readAt` is a stored null. */
  datatype Message = Message(
    id: nat,
    from: UserId,
    to: UserId,
    content: string,
    contentType: Option<string>,
    meta: Json,
    createdAt: nat,
    deliveredAt: Option<nat>,
    readAt: Option<nat>)

  /** The fields handed to `new Message({...})`; `None` means the field is left undefined. */
  datatype Draft = Draft(
    from: Option<Json>,
    to: Option<Json>,
    content: Option<Json>,
    contentType: Option<Json>,
    meta: Option<Json>,
    createdAt: Option<nat>)

  /** The message text a draft casts to, if it is present, castable and not empty (the `required` check). */
  function ContentOf(d: Draft): Option<string>
  {
    if d.content.None? || d.content.value.JNull? then None
    else match CastString(d.content.value)
      case Cast(t) => if t == "" then None else Some(t)
      case CastFailed => None
  }

  /** Whether the draft's content type casts; an undefined or null value always does. */
  predicate ContentTypeCasts(d: Draft)
  {
    d.contentType.None? || d.contentType.value.JNull? || CastString(d.contentType.value).Cast?
  }

  /** The paths that fail validation when the draft is saved. */
  function FailingPaths(d: Draft): (r: set<string>)
    ensures "from" in r <==> CastObjectId(d.from).None?
    ensures "to" in r <==> CastObjectId(d.to).None?
    ensures "content" in r <==> ContentOf(d).None?
    ensures "contentType" in r <==> !ContentTypeCasts(d)
    ensures r <= {"from", "to", "content", "contentType"}
  {
    (if CastObjectId(d.from).None? then {"from"} else {})
    + (if CastObjectId(d.to).None? then {"to"} else {})
    + (if ContentOf(d).None? then {"content"} else {})
    + (if !ContentTypeCasts(d) then {"contentType"} else {})
  }

  /**
   * Building a message from a draft and validating it, as the schema does on
   * `save()`: the message gets store identity `id`; `now` is the creation time.
   */
  function Create(d: Draft, id: nat, now: nat): (r: Result<Message, set<string>>)
    ensures r.Err? <==> FailingPaths(d) != {}
    ensures r.Err? ==> r.error == FailingPaths(d)
    ensures r.Ok? ==> var m := r.value;
      && m.id == id
      && m.from == CastObjectId(d.from).value
      && m.to == CastObjectId(d.to).value
      && Some(m.content) == ContentOf(d) && m.content != ""
      && m.deliveredAt == None && m.readAt == None
      && (d.contentType == None ==> m.contentType == Some("text"))
      && (d.contentType == Some(JNull) ==> m.contentType == None)
      && (forall t :: d.contentType == Some(JStr(t)) ==> m.contentType == Some(t))
      && (d.meta == None ==> m.meta == JObject(map[]))
      && (forall v :: d.meta == Some(v) ==> m.meta == v)
      && (d.createdAt == None ==> m.createdAt == now)
      && (forall t :: d.createdAt == Some(t) ==> m.createdAt == t)
  {
    if FailingPaths(d) != {} then Err(FailingPaths(d))
    else
      var contentType :=
        if d.contentType.None? then Some("text")
        else if d.contentType.value.JNull? then None
        else Some(CastString(d.contentType.value).text);
      Ok(Message(
        id,
        CastObjectId(d.from).value,
        CastObjectId(d.to).value,
        ContentOf(d).value,
        contentType,
        if d.meta.None? then JObject(map[]) else d.meta.value,
        if d.createdAt.None? then now else d.createdAt.value,
        None,
        None))
  }
}
