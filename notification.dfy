/** The notification record of the server and the decoding of the `urgency`
    hint (Desktop Notifications Specification 1.2, "Urgency Levels"). */
module Notifications {
  import opened Common

  /** The three urgency levels; the wire form is one byte. */
  datatype Urgency = Low | Normal | Critical

  /** The byte that stands for each level on the bus (`Low = 0` ...). */
  function Discriminant(u: Urgency): (b: u8)
    ensures b <= 2
  {
    match u
    case Low => 0
    case Normal => 1
    case Critical => 2
  }

  /** The subset of D-Bus variant values the hint map can carry that matters
      here. `Fd` stands for a file descriptor: whether the operating system
      lets it be duplicated (and so lets the value be owned) is an input. */
  datatype Value =
    | Byte(byte: u8)
    | Boolean(flag: bool)
    | Int32(i: i32)
    | UInt32(u: nat)
    | Str(text: string)
    | Fd(duplicable: bool)
    | Other

  /** A value that was successfully copied out of the message. */
  datatype OwnedValue = Owned(inner: Value)

  /** The only error the decoders report. */
  datatype DecodeError = IncorrectType

  /** `Value::try_to_owned`: fails only for a descriptor that cannot be duplicated. */
  function TryToOwned(v: Value): (r: Option<OwnedValue>)
    ensures r.None? <==> v.Fd? && !v.duplicable
    ensures r.Some? ==> r.value.inner == v
  {
    if v.Fd? && !v.duplicable then None else Some(Owned(v))
  }

  /** `u8::try_from` on a variant value: only a byte converts. */
  function ByteOf(v: Value): Result<u8, DecodeError> {
    if v.Byte? then Ok(v.byte) else Err(IncorrectType)
  }

  /** The byte-to-level match shared by both decoders. */
  function UrgencyOfByte(b: u8): (r: Result<Urgency, DecodeError>)
    ensures r.Ok? <==> b <= 2
    ensures r.Ok? ==> Discriminant(r.value) == b
  {
    match b
    case 0 => Ok(Low)
    case 1 => Ok(Normal)
    case 2 => Ok(Critical)
    case _ => Err(IncorrectType)
  }

  /** `Urgency::try_from(OwnedValue)` */
  function UrgencyFromOwned(v: OwnedValue): (r: Result<Urgency, DecodeError>)
    ensures r.Ok? <==> v.inner.Byte? && v.inner.byte <= 2
    ensures r.Ok? ==> Discriminant(r.value) == v.inner.byte
    ensures r.Err? ==> r.error == IncorrectType
  {
    match ByteOf(v.inner)
    case Err(e) => Err(e)
    case Ok(b) => UrgencyOfByte(b)
  }

  /** `Urgency::try_from(&Value)` */
  function UrgencyFromValue(v: Value): (r: Result<Urgency, DecodeError>)
    ensures r.Ok? <==> v.Byte? && v.byte <= 2
    ensures r.Ok? ==> Discriminant(r.value) == v.byte
  {
    match v
    case Byte(b) => UrgencyOfByte(b)
    case _ => Err(IncorrectType)
  }

  /** Decoding the wire byte of a level gives the level back. */
  lemma DecodeDiscriminant(u: Urgency)
    ensures UrgencyFromValue(Byte(Discriminant(u))) == Ok(u)
    ensures UrgencyFromOwned(Owned(Byte(Discriminant(u)))) == Ok(u)
  {
  }

  /** The owned and the borrowed decoder agree on every value. */
  lemma DecodersAgree(v: Value)
    ensures UrgencyFromOwned(Owned(v)) == UrgencyFromValue(v)
  {
  }

  /** The notification as the server records it and hands to the popups. The
      `u32` ids and the `i32` timeout are unbounded here. */
  datatype Notification = Notification(
    id: nat,
    appName: string,
    replacesId: nat,
    appIcon: string,
    summary: string,
    body: string,
    actions: seq<string>,
    expireTimeout: int,
    urgency: Urgency,
    imagePath: Option<string>,
    resident: bool)

  /** `Notification::new`: every argument lands in the field of that name. */
  function NewNotification(
    id: nat, appName: string, replacesId: nat, appIcon: string, summary: string,
    body: string, actions: seq<string>, expireTimeout: int, urgency: Urgency,
    imagePath: Option<string>, resident: bool): (n: Notification)
    ensures n.id == id && n.appName == appName && n.replacesId == replacesId
    ensures n.appIcon == appIcon && n.summary == summary && n.body == body
    ensures n.actions == actions && n.expireTimeout == expireTimeout
    ensures n.urgency == urgency && n.imagePath == imagePath && n.resident == resident
  {
    Notification(id, appName, replacesId, appIcon, summary, body, actions,
                 expireTimeout, urgency, imagePath, resident)
  }
}

/** The `urgency_serde_helper` module: the urgency field of a stored
    notification goes through `UrgencySerde`, whose serde form is the name of
    the variant. */
module UrgencySerdeHelper {
  import opened Common
  import opened Notifications
  import opened Persistence

  function Serialize(u: Urgency): (s: string)
    ensures s in {"Low", "Normal", "Critical"}
  {
    VariantName(FromUrgency(u))
  }

  function Deserialize(s: string): (r: Result<Urgency, string>)
    ensures r.Err? <==> s !in {"Low", "Normal", "Critical"}
  {
    match ParseVariantName(s)
    case Some(v) => Ok(ToUrgency(v))
    case None => Err("unknown variant")
  }

  /** What is stored is read back unchanged ... */
  lemma {:induction false} DeserializeSerialize(u: Urgency)
    ensures Deserialize(Serialize(u)) == Ok(u)
  {
    VariantNameRoundTrip(FromUrgency(u));
    UrgencyRoundTrip(u);
  }

  /** ... and a name that reads back as a level is exactly that level's name. */
  lemma {:induction false} SerializeDeserialize(s: string)
    requires Deserialize(s).Ok?
    ensures Serialize(Deserialize(s).value) == s
  {
    var v := ParseVariantName(s).value;
    SerdeRoundTrip(v);
  }
}
