/**
 * The packed SoundBank records and the one-byte code tables of the Wwise
 * object graph.
 *
 * Every record is `#pragma pack(1)`: its fields follow each other with no
 * padding, so a record of n bytes is exactly the n file bytes copied over it.
 * Each record gets a decoder from exactly its own size in bytes and the
 * encoder that undoes it.
 */
module Structs {
  import opened Bytes

  datatype Option<T> = None | Some(value: T)

  const IndexSize: nat := 12
  const SectionSize: nat := 8
  const BankHeaderSize: nat := 8
  const ObjectSize: nat := 9

  // ---------------------------------------------------------------------
  // Index: one embedded WEM descriptor, `id`, `offset`, `size`.

  datatype Index = Index(id: u32, offset: u32, size: u32)

  /** The record read from twelve bytes. Decoding loses nothing: encoding
      the record gives the bytes back. */
  function DecodeIndex(s: seq<byte>): (r: Index)
    requires |s| == IndexSize
    ensures EncodeIndex(r) == s
  {
    EncodeDecodeU32(s[0..4]);
    EncodeDecodeU32(s[4..8]);
    EncodeDecodeU32(s[8..12]);
    assert s == s[0..4] + s[4..8] + s[8..12];
    Index(DecodeU32(s[0..4]), DecodeU32(s[4..8]), DecodeU32(s[8..12]))
  }

  function EncodeIndex(x: Index): (s: seq<byte>)
    ensures |s| == IndexSize
  {
    EncodeU32(x.id) + EncodeU32(x.offset) + EncodeU32(x.size)
  }

  /** The twelve bytes hold `id`, `offset` and `size` in that order. */
  lemma IndexLayout(id: u32, offset: u32, size: u32)
    ensures DecodeIndex(EncodeU32(id) + EncodeU32(offset) + EncodeU32(size)) == Index(id, offset, size)
  {
    var s := EncodeU32(id) + EncodeU32(offset) + EncodeU32(size);
    assert s[0..4] == EncodeU32(id) && s[4..8] == EncodeU32(offset) && s[8..12] == EncodeU32(size);
    DecodeEncodeU32(id);
    DecodeEncodeU32(offset);
    DecodeEncodeU32(size);
  }

  // ---------------------------------------------------------------------
  // Section: a top-level chunk header, four signature bytes and the size of
  // the payload that follows the header.

  /** The signature bytes are copied as they are, never read as a number. */
  type Signature = s: seq<byte> | |s| == 4 witness [0, 0, 0, 0]

  datatype Section = Section(sign: Signature, size: u32)

  /** The header read from eight bytes. That decoding loses nothing is
      `SectionRoundTrip`, kept apart so that the section walk, which decodes
      a header at every step, does not carry it. */
  function DecodeSection(s: seq<byte>): Section
    requires |s| == SectionSize
  {
    Section(s[0..4], DecodeU32(s[4..8]))
  }

  function EncodeSection(x: Section): (s: seq<byte>)
    ensures |s| == SectionSize
  {
    x.sign + EncodeU32(x.size)
  }

  /** The eight bytes hold the raw signature, then `size`. */
  lemma SectionLayout(sign: Signature, size: u32)
    ensures DecodeSection(sign + EncodeU32(size)) == Section(sign, size)
  {
    var s := sign + EncodeU32(size);
    assert s[0..4] == sign && s[4..8] == EncodeU32(size);
    DecodeEncodeU32(size);
  }

  /** Decoding eight bytes loses nothing: encoding the header gives them back. */
  lemma SectionRoundTrip(s: seq<byte>)
    requires |s| == SectionSize
    ensures EncodeSection(DecodeSection(s)) == s
  {
    EncodeDecodeU32(s[4..8]);
    assert s == s[0..4] + s[4..8];
  }

  // ---------------------------------------------------------------------
  // BankHeader: the payload of a BKHD section, `version` then `id`.

  datatype BankHeader = BankHeader(version: u32, id: u32)

  /** The header read from eight bytes. Decoding loses nothing: encoding
      the header gives the bytes back. */
  function DecodeBankHeader(s: seq<byte>): (r: BankHeader)
    requires |s| == BankHeaderSize
    ensures EncodeBankHeader(r) == s
  {
    EncodeDecodeU32(s[0..4]);
    EncodeDecodeU32(s[4..8]);
    assert s == s[0..4] + s[4..8];
    BankHeader(DecodeU32(s[0..4]), DecodeU32(s[4..8]))
  }

  function EncodeBankHeader(x: BankHeader): (s: seq<byte>)
    ensures |s| == BankHeaderSize
  {
    EncodeU32(x.version) + EncodeU32(x.id)
  }

  /** The eight bytes hold `version`, then `id`. */
  lemma BankHeaderLayout(version: u32, id: u32)
    ensures DecodeBankHeader(EncodeU32(version) + EncodeU32(id)) == BankHeader(version, id)
  {
    var s := EncodeU32(version) + EncodeU32(id);
    assert s[0..4] == EncodeU32(version) && s[4..8] == EncodeU32(id);
    DecodeEncodeU32(version);
    DecodeEncodeU32(id);
  }

  // ---------------------------------------------------------------------
  // ObjectType: the kind of a HIRC object, codes 2 to 20.

  datatype ObjectType =
    | SoundEffectOrVoice | EventAction | Event | RandomOrSequenceContainer
    | SwitchContainer | ActorMixer | AudioBus | BlendContainer | MusicSegment
    | MusicTrack | MusicSwitchContainer | MusicPlaylistContainer | Attenuation
    | DialogueEvent | MotionBus | MotionFx | Effect | Unknown | AuxiliaryBus
  {
    function Code(): byte {
      match this
      case SoundEffectOrVoice => 2
      case EventAction => 3
      case Event => 4
      case RandomOrSequenceContainer => 5
      case SwitchContainer => 6
      case ActorMixer => 7
      case AudioBus => 8
      case BlendContainer => 9
      case MusicSegment => 10
      case MusicTrack => 11
      case MusicSwitchContainer => 12
      case MusicPlaylistContainer => 13
      case Attenuation => 14
      case DialogueEvent => 15
      case MotionBus => 16
      case MotionFx => 17
      case Effect => 18
      case Unknown => 19
      case AuxiliaryBus => 20
    }
  }

  /** The object kind a type byte names: exactly the codes 2 to 20 name one,
      and it is the kind whose code is that byte. */
  function ObjectTypeFromCode(b: byte): (r: Option<ObjectType>)
    ensures r.Some? <==> 2 <= b <= 20
    ensures r.Some? ==> r.value.Code() == b
  {
    if b == 2 then Some(SoundEffectOrVoice)
    else if b == 3 then Some(EventAction)
    else if b == 4 then Some(Event)
    else if b == 5 then Some(RandomOrSequenceContainer)
    else if b == 6 then Some(SwitchContainer)
    else if b == 7 then Some(ActorMixer)
    else if b == 8 then Some(AudioBus)
    else if b == 9 then Some(BlendContainer)
    else if b == 10 then Some(MusicSegment)
    else if b == 11 then Some(MusicTrack)
    else if b == 12 then Some(MusicSwitchContainer)
    else if b == 13 then Some(MusicPlaylistContainer)
    else if b == 14 then Some(Attenuation)
    else if b == 15 then Some(DialogueEvent)
    else if b == 16 then Some(MotionBus)
    else if b == 17 then Some(MotionFx)
    else if b == 18 then Some(Effect)
    else if b == 19 then Some(Unknown)
    else if b == 20 then Some(AuxiliaryBus)
    else None
  }

  /** Every kind has a code in 2 to 20 that names it back. */
  lemma ObjectTypeCodeRoundTrip(t: ObjectType)
    ensures 2 <= t.Code() <= 20
    ensures ObjectTypeFromCode(t.Code()) == Some(t)
  {
  }

  // ---------------------------------------------------------------------
  // Object: a HIRC object header, the type byte, then `size`, then `id`.

  /** The type byte is kept as read: the enum has a one-byte underlying type,
      so any byte fills it, named kind or not. */
  datatype Object = Object(typeCode: byte, size: u32, id: u32)
  {
    function Type(): Option<ObjectType> {
      ObjectTypeFromCode(typeCode)
    }
  }

  /** The header read from nine bytes, whatever its type byte. Decoding
      loses nothing: encoding the header gives the bytes back. */
  function DecodeObject(s: seq<byte>): (r: Object)
    requires |s| == ObjectSize
    ensures EncodeObject(r) == s
  {
    EncodeDecodeU32(s[1..5]);
    EncodeDecodeU32(s[5..9]);
    assert s == [s[0]] + s[1..5] + s[5..9];
    Object(s[0], DecodeU32(s[1..5]), DecodeU32(s[5..9]))
  }

  function EncodeObject(x: Object): (s: seq<byte>)
    ensures |s| == ObjectSize
  {
    [x.typeCode] + EncodeU32(x.size) + EncodeU32(x.id)
  }

  /** The nine bytes hold the type byte, then `size`, then `id`. */
  lemma ObjectLayout(t: ObjectType, size: u32, id: u32)
    ensures DecodeObject([t.Code()] + EncodeU32(size) + EncodeU32(id)).Type() == Some(t)
    ensures DecodeObject([t.Code()] + EncodeU32(size) + EncodeU32(id)) == Object(t.Code(), size, id)
  {
    var s := [t.Code()] + EncodeU32(size) + EncodeU32(id);
    assert s[1..5] == EncodeU32(size) && s[5..9] == EncodeU32(id);
    DecodeEncodeU32(size);
    DecodeEncodeU32(id);
    ObjectTypeCodeRoundTrip(t);
  }

  // ---------------------------------------------------------------------
  // Event and event-action payload records and their code tables. Nothing in
  // the modelled code fills these; they are the shapes it declares.

  datatype EventObject = EventObject(actionCount: u32, actionIds: seq<u32>)

  datatype EventActionScope =
    | SwitchOrTrigger | Global | GameObject | State | All | AllExcept
  {
    function Code(): byte {
      match this
      case SwitchOrTrigger => 1
      case Global => 2
      case GameObject => 3
      case State => 4
      case All => 5
      case AllExcept => 6
    }
  }

  /** Exactly the codes 1 to 6 name a scope, the one with that code. */
  function EventActionScopeFromCode(b: byte): (r: Option<EventActionScope>)
    ensures r.Some? <==> 1 <= b <= 6
    ensures r.Some? ==> r.value.Code() == b
  {
    if b == 1 then Some(SwitchOrTrigger)
    else if b == 2 then Some(Global)
    else if b == 3 then Some(GameObject)
    else if b == 4 then Some(State)
    else if b == 5 then Some(All)
    else if b == 6 then Some(AllExcept)
    else None
  }

  /** Every scope has a code in 1 to 6 that names it back. */
  lemma EventActionScopeCodeRoundTrip(t: EventActionScope)
    ensures 1 <= t.Code() <= 6
    ensures EventActionScopeFromCode(t.Code()) == Some(t)
  {
  }

  datatype EventActionType =
    | Stop | Pause | Resume | Play | Trigger | Mute | UnMute
    | SetVoicePitch | ResetVoicePitch | SetVoiceVolume | ResetVoiceVolume
    | SetBusVolume | ResetBusVolume | SetVoiceLowPassFilter
    | ResetVoiceLowPassFilter | EnableState | DisableState | SetState
    | SetGameParameter | ResetGameParameter | SetSwitch | ToggleBypass
    | ResetBypassEffect | Break | Seek
  {
    function Code(): byte {
      match this
      case Stop => 1
      case Pause => 2
      case Resume => 3
      case Play => 4
      case Trigger => 5
      case Mute => 6
      case UnMute => 7
      case SetVoicePitch => 8
      case ResetVoicePitch => 9
      case SetVoiceVolume => 10
      case ResetVoiceVolume => 11
      case SetBusVolume => 12
      case ResetBusVolume => 13
      case SetVoiceLowPassFilter => 14
      case ResetVoiceLowPassFilter => 15
      case EnableState => 16
      case DisableState => 17
      case SetState => 18
      case SetGameParameter => 19
      case ResetGameParameter => 20
      case SetSwitch => 21
      case ToggleBypass => 22
      case ResetBypassEffect => 23
      case Break => 24
      case Seek => 25
    }
  }

  /** Exactly the codes 1 to 25 name an action type, the one with that code. */
  function EventActionTypeFromCode(b: byte): (r: Option<EventActionType>)
    ensures r.Some? <==> 1 <= b <= 25
    ensures r.Some? ==> r.value.Code() == b
  {
    if b == 1 then Some(Stop)
    else if b == 2 then Some(Pause)
    else if b == 3 then Some(Resume)
    else if b == 4 then Some(EventActionType.Play)
    else if b == 5 then Some(Trigger)
    else if b == 6 then Some(Mute)
    else if b == 7 then Some(UnMute)
    else if b == 8 then Some(SetVoicePitch)
    else if b == 9 then Some(ResetVoicePitch)
    else if b == 10 then Some(SetVoiceVolume)
    else if b == 11 then Some(ResetVoiceVolume)
    else if b == 12 then Some(SetBusVolume)
    else if b == 13 then Some(ResetBusVolume)
    else if b == 14 then Some(SetVoiceLowPassFilter)
    else if b == 15 then Some(ResetVoiceLowPassFilter)
    else if b == 16 then Some(EnableState)
    else if b == 17 then Some(DisableState)
    else if b == 18 then Some(SetState)
    else if b == 19 then Some(SetGameParameter)
    else if b == 20 then Some(ResetGameParameter)
    else if b == 21 then Some(SetSwitch)
    else if b == 22 then Some(ToggleBypass)
    else if b == 23 then Some(ResetBypassEffect)
    else if b == 24 then Some(Break)
    else if b == 25 then Some(Seek)
    else None
  }

  /** Every action type has a code in 1 to 25 that names it back. */
  lemma EventActionTypeCodeRoundTrip(t: EventActionType)
    ensures 1 <= t.Code() <= 25
    ensures EventActionTypeFromCode(t.Code()) == Some(t)
  {
  }

  datatype EventActionParameterType = Delay | Play | Probability
  {
    function Code(): byte {
      match this
      case Delay => 0x0E
      case Play => 0x0F
      case Probability => 0x10
    }
  }

  /** Exactly 0x0E, 0x0F and 0x10 name a parameter type; every other byte is
      rejected. */
  function EventActionParameterTypeFromCode(b: byte): (r: Option<EventActionParameterType>)
    ensures r.Some? <==> b in {0x0E, 0x0F, 0x10}
    ensures r.Some? ==> r.value.Code() == b
  {
    if b == 0x0E then Some(EventActionParameterType.Delay)
    else if b == 0x0F then Some(EventActionParameterType.Play)
    else if b == 0x10 then Some(Probability)
    else None
  }

  /** Every parameter type has a code that names it back. */
  lemma EventActionParameterTypeCodeRoundTrip(t: EventActionParameterType)
    ensures EventActionParameterTypeFromCode(t.Code()) == Some(t)
  {
  }

  /** An event action. As with `Object`, the scope, action type and
      parameter type fields are one-byte enums that hold any byte, so they
      are kept as read; `Scope()` and `ActionType()` name them when they are
      declared codes. */
  datatype EventActionObject = EventActionObject(
    scopeCode: byte,
    actionTypeCode: byte,
    gameObjectId: u32,
    parameterCount: byte,
    parameterTypeCodes: seq<byte>,
    parameters: seq<byte>)
  {
    function Scope(): Option<EventActionScope> {
      EventActionScopeFromCode(scopeCode)
    }

    function ActionType(): Option<EventActionType> {
      EventActionTypeFromCode(actionTypeCode)
    }
  }

  /** One extracted audio asset: its descriptor and its bytes. */
  datatype WEMFile = WEMFile(index: Index, data: seq<byte>)
}
