/** The table of addressable parameters. */
module Topics {
  import opened Common
  import opened Frames
  import opened Codecs

  datatype Topic =
    | GwFwver | GwMac | CfgFwid | ProductName | CmsSku
    | Ptype | Nocpt | Cpow | Ctemp | Csettemp | Acpt | Cdoor | Ctemprng | Crecdrng | Ctempofs
    | Coolerpow | V | Batprotlvl | Comppow | I | Powsrc | Icepow | Errst | Sn | Sku | Fwver

  function Mccc(param: byte): Address {
    Address(param, 0, 0, 0x1A)
  }

  function AddressOf(t: Topic): Address {
    match t
    case GwFwver => Address(0x02, 0, 0, 0)
    case GwMac => Address(0x11, 0, 0, 0)
    case CfgFwid => Address(0x07, 0, 1, 0)
    case ProductName => Address(0x01, 0, 0, 0x1C)
    case CmsSku => Address(0x03, 0, 0, 0x1C)
    case Ptype => Mccc(0x01)
    case Nocpt => Mccc(0x02)
    case Cpow => Mccc(0x03)
    case Ctemp => Mccc(0x04)
    case Csettemp => Mccc(0x05)
    case Acpt => Mccc(0x06)
    case Cdoor => Mccc(0x07)
    case Ctemprng => Mccc(0x08)
    case Crecdrng => Mccc(0x09)
    case Ctempofs => Mccc(0x0A)
    case Coolerpow => Mccc(0x0B)
    case V => Mccc(0x0C)
    case Batprotlvl => Mccc(0x0D)
    case Comppow => Mccc(0x0E)
    case I => Mccc(0x0F)
    case Powsrc => Mccc(0x10)
    case Icepow => Mccc(0x11)
    case Errst => Mccc(0x12)
    case Sn => Mccc(0x13)
    case Sku => Mccc(0x14)
    case Fwver => Mccc(0x15)
  }

  /** `TOPIC_BY_ADDRESS.get`. */
  function TopicAt(a: Address): Option<Topic> {
    if a.inst != 0 then None
    else if a.cls == 0x1A && a.subclass == 0 then CoolerTopic(a.param)
    else if a == Address(0x02, 0, 0, 0) then Some(GwFwver)
    else if a == Address(0x11, 0, 0, 0) then Some(GwMac)
    else if a == Address(0x07, 0, 1, 0) then Some(CfgFwid)
    else if a == Address(0x01, 0, 0, 0x1C) then Some(ProductName)
    else if a == Address(0x03, 0, 0, 0x1C) then Some(CmsSku)
    else None
  }

  function CoolerTopic(param: byte): Option<Topic> {
    match param
    case 0x01 => Some(Ptype)
    case 0x02 => Some(Nocpt)
    case 0x03 => Some(Cpow)
    case 0x04 => Some(Ctemp)
    case 0x05 => Some(Csettemp)
    case 0x06 => Some(Acpt)
    case 0x07 => Some(Cdoor)
    case 0x08 => Some(Ctemprng)
    case 0x09 => Some(Crecdrng)
    case 0x0A => Some(Ctempofs)
    case 0x0B => Some(Coolerpow)
    case 0x0C => Some(V)
    case 0x0D => Some(Batprotlvl)
    case 0x0E => Some(Comppow)
    case 0x0F => Some(I)
    case 0x10 => Some(Powsrc)
    case 0x11 => Some(Icepow)
    case 0x12 => Some(Errst)
    case 0x13 => Some(Sn)
    case 0x14 => Some(Sku)
    case 0x15 => Some(Fwver)
    case _ => None
  }

  /** No two topics share an address, and the address index finds exactly the topics. */
  lemma TopicAtIff(a: Address, t: Topic)
    ensures TopicAt(a) == Some(t) <==> AddressOf(t) == a
  {
  }

  function CodecOf(t: Topic): Codec {
    match t
    case GwFwver | CfgFwid | ProductName | CmsSku | Sn | Sku | Fwver => Str
    case GwMac => Mac
    case Ptype => Enum(ProductType)
    case Batprotlvl => Enum(BatteryProtection)
    case Powsrc => Enum(PowerSource)
    case Nocpt | Acpt => Int32
    case Cpow | Cdoor => Bools
    case Ctemp | Csettemp | Ctempofs => Millis
    case Ctemprng | Crecdrng => MilliPairs
    case Coolerpow | Comppow | Icepow => Bool
    case V | I => Milli
    case Errst => U16s
  }

  predicate IsWritable(t: Topic) {
    t in {Cpow, Csettemp, Coolerpow, Batprotlvl, Icepow}
  }

  predicate PerCompartment(t: Topic) {
    t in {Cpow, Ctemp, Csettemp, Cdoor, Ctemprng, Crecdrng, Ctempofs}
  }

  /** The topics whose values are always lists. */
  predicate IsArray(t: Topic) {
    PerCompartment(t) || t == Errst
  }

  const NEVER_WRITE: set<Address> := {
    Address(0x14, 0, 0, 0), Address(0x03, 0, 0, 0), Address(0x06, 0, 0, 0),
    Address(0x01, 0, 1, 2), Address(0x01, 0, 2, 2), Address(0x01, 0, 3, 2),
    Mccc(0x01), Mccc(0x02), Mccc(0x08), Mccc(0x09), Mccc(0x0A), Mccc(0x13), Mccc(0x14), Mccc(0x15)
  }

  /** A topic is named by itself or by its address; an unknown address is a `KeyError`. */
  datatype TopicRef = ByTopic(topic: Topic) | ByAddress(address: Address)

  function Resolve(r: TopicRef): Option<Topic> {
    match r
    case ByTopic(t) => Some(t)
    case ByAddress(a) => TopicAt(a)
  }

  /** Five parameters of the cooler can be written: compartment power, set-points, cooler power,
      battery protection and the ice maker. */
  lemma WritableIff(a: Address)
    ensures TopicAt(a).Some? && IsWritable(TopicAt(a).value) <==>
            a.inst == 0 && a.subclass == 0 && a.cls == 0x1A && a.param in {0x03, 0x05, 0x0B, 0x0D, 0x11}
  {
  }

  /** Never written: three parameters of the gateway, its three others of class 2, and what tells
      the cooler its kind, its limits, its offsets and its identity. */
  lemma NeverWriteIff(a: Address)
    ensures a in NEVER_WRITE <==>
            || (a.cls == 0 && a.inst == 0 && a.subclass == 0 && a.param in {0x03, 0x06, 0x14})
            || (a.cls == 2 && a.inst == 0 && a.param == 0x01 && 1 <= a.subclass <= 3)
            || (a.cls == 0x1A && a.inst == 0 && a.subclass == 0
                && (a.param in {0x01, 0x02, 0x08, 0x09, 0x0A} || 0x13 <= a.param <= 0x15))
  {
  }

  /** The allow-list and the never-write list do not meet. */
  lemma WritableIsSafe(t: Topic)
    requires IsWritable(t)
    ensures AddressOf(t) !in NEVER_WRITE
  {
  }
}
