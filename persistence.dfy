/** The stored form of notifications: the `UrgencySerde` mirror of `Urgency`
    and the rule for reading the cache file. The JSON codec itself and the
    file system are inputs. */
module Persistence {
  import opened Common
  import opened Text
  import opened Notifications

  /** The serialisable twin of `Urgency`, with the same discriminants. */
  datatype UrgencySerde = Low | Normal | Critical

  function SerdeDiscriminant(u: UrgencySerde): (b: nat)
    ensures b <= 2
  {
    match u
    case Low => 0
    case Normal => 1
    case Critical => 2
  }

  /** `From<Urgency> for UrgencySerde` */
  function FromUrgency(u: Urgency): (r: UrgencySerde)
    ensures SerdeDiscriminant(r) == Discriminant(u)
  {
    match u
    case Low => UrgencySerde.Low
    case Normal => UrgencySerde.Normal
    case Critical => UrgencySerde.Critical
  }

  /** `From<UrgencySerde> for Urgency` */
  function ToUrgency(u: UrgencySerde): (r: Urgency)
    ensures Discriminant(r) == SerdeDiscriminant(u)
  {
    match u
    case Low => Urgency.Low
    case Normal => Urgency.Normal
    case Critical => Urgency.Critical
  }

  /** Urgency -> UrgencySerde -> Urgency is the identity. */
  lemma UrgencyRoundTrip(u: Urgency)
    ensures ToUrgency(FromUrgency(u)) == u
  {
  }

  /** UrgencySerde -> Urgency -> UrgencySerde is the identity. */
  lemma SerdeRoundTrip(u: UrgencySerde)
    ensures FromUrgency(ToUrgency(u)) == u
  {
  }

  /** The two conversions pair the same names: each maps a level to the one
      with the same discriminant, which identifies it. */
  lemma {:induction false} ConversionsMatchDiscriminants(u: Urgency, s: UrgencySerde)
    ensures FromUrgency(u) == s <==> Discriminant(u) == SerdeDiscriminant(s)
    ensures ToUrgency(s) == u <==> Discriminant(u) == SerdeDiscriminant(s)
  {
    match u
    case Low =>
    case Normal =>
    case Critical =>
  }

  /** serde's external form of a unit variant: its name. */
  function VariantName(u: UrgencySerde): (s: string)
    ensures s != []
  {
    match u
    case Low => "Low"
    case Normal => "Normal"
    case Critical => "Critical"
  }

  function ParseVariantName(s: string): (r: Option<UrgencySerde>)
    ensures r.Some? <==> s in {"Low", "Normal", "Critical"}
    ensures r.Some? ==> VariantName(r.value) == s
  {
    if s == "Low" then Some(UrgencySerde.Low)
    else if s == "Normal" then Some(UrgencySerde.Normal)
    else if s == "Critical" then Some(UrgencySerde.Critical)
    else None
  }

  lemma VariantNameRoundTrip(u: UrgencySerde)
    ensures ParseVariantName(VariantName(u)) == Some(u)
  {
  }

  /** What the cache file looks like when the loader opens it. */
  datatype CacheFile = Absent | Unreadable(reason: string) | Present(content: string)

  datatype PersistenceError = Io(reason: string) | Json(reason: string) | DirectoryError(reason: string)

  /** `load_notifications`: a missing file or one holding only whitespace is an
      empty history; anything else goes to the JSON decoder, given as `decode`.
      `cacheDir` is `None` when no cache directory can be determined. */
  function LoadNotifications(
    cacheDir: Option<string>, file: CacheFile,
    decode: string -> Result<seq<Notification>, string>): (r: Result<seq<Notification>, PersistenceError>)
    ensures cacheDir.None? ==> r.Err? && r.error.DirectoryError?
    ensures cacheDir.Some? && file.Absent? ==> r == Ok([])
    ensures cacheDir.Some? && file.Present? && IsBlank(file.content) ==> r == Ok([])
    ensures r.Ok? && r.value != [] ==>
      file.Present? && !IsBlank(file.content) && decode(file.content) == Ok(r.value)
    ensures file.Unreadable? ==> r.Err?
  {
    if cacheDir.None? then Err(DirectoryError("Could not determine cache directory"))
    else match file
      case Absent => Ok([])
      case Unreadable(e) => Err(Io(e))
      case Present(content) =>
        if Trim(content) == [] then Ok([])
        else match decode(content)
          case Ok(ns) => Ok(ns)
          case Err(e) => Err(Json(e))
  }
}
