/** The configuration values (switch-configurator/src/models.rs, config.rs). */
module Models {
  import opened Basics

  datatype Vendor = Aruba | Fortiswitch | Cisco

  datatype SwitchModel =
    | Aruba2530_24G_POE | Aruba2530_8G_POE | Aruba2530_48G_2SFP
    | Aruba2540_24G | Aruba2540_48G_4SFP | Aruba2930F
    | Fortiswitch124F_FPOE | CiscoCatalyst9300_24P_UPOE
  {
    function VendorOf(): Vendor {
      match this
      case Fortiswitch124F_FPOE => Fortiswitch
      case CiscoCatalyst9300_24P_UPOE => Cisco
      case _ => Aruba
    }

    function ImplicitVlans(): seq<u16> { [1] }

    function MaxVlanNameLength(): nat {
      if this == Fortiswitch124F_FPOE then 63 else 32
    }

    predicate SupportsPoe() {
      this in {Aruba2530_24G_POE, Aruba2530_8G_POE, Aruba2930F, Fortiswitch124F_FPOE, CiscoCatalyst9300_24P_UPOE}
    }

    predicate SupportsVlanDescription() { this in {Fortiswitch124F_FPOE, CiscoCatalyst9300_24P_UPOE} }

    predicate SupportsSpeed(speed: SpeedDuplex) {
      speed == TenGFull ==>
        this in {Aruba2530_48G_2SFP, Aruba2540_48G_4SFP, Aruba2930F, CiscoCatalyst9300_24P_UPOE}
    }
  }

  datatype SpeedDuplex = Auto | TenHalf | TenFull | HundredHalf | HundredFull | ThousandFull | TenGFull

  datatype PortMode = Access | Trunk

  datatype MirrorDirection = Rx | Tx | Both

  datatype VlanIpConfig = NoAddress | Dhcp | Static(address: string, netmask: string)

  datatype Vlan = Vlan(id: u16, name: string, description: Option<string>, ipConfig: VlanIpConfig)

  /** A port's reference to a VLAN, as written in YAML: a number or a name. */
  datatype VlanRef = Id(id: u16) | Name(name: string)

  /** The fields of a port that VLAN handling never looks at. */
  datatype PortExtras = PortExtras(
    mode: PortMode, description: Option<string>, enabled: bool,
    poeEnabled: bool, macNotify: bool, speedDuplex: SpeedDuplex)

  /** `vlanName` and `taggedVlanRefs` hold names until they are resolved into
      `vlan` and `taggedVlans`. */
  datatype Port = Port(
    portId: string, vlan: u16, taggedVlans: seq<u16>, extras: PortExtras,
    vlanName: Option<string>, taggedVlanRefs: seq<VlanRef>)
  {
    predicate Resolved() { vlanName == None && taggedVlanRefs == [] }
  }

  datatype PortMirror = PortMirror(
    sessionId: string, sourcePorts: seq<string>, destinationPort: string, direction: MirrorDirection)

  const VLAN_ID := (v: Vlan) => v.id
  const PORT_ID := (p: Port) => p.portId
  const SESSION_ID := (m: PortMirror) => m.sessionId

  datatype SnmpAccess = Unrestricted | Manager | Operator

  datatype AllowedHost = AutoHost | Network(network: string)

  datatype SnmpCommunity = SnmpCommunity(
    name: string, access: SnmpAccess, nameFile: Option<string>, nameCredential: Option<string>,
    allowedHosts: seq<AllowedHost>)

  datatype TrapReceiver = TrapReceiver(host: string, community: string, version: Option<string>)

  datatype TrapType = MacNotify | LinkChange | AllTraps

  /** `autoMode` is `mode: auto`. */
  datatype SnmpReads = SnmpReads(autoMode: bool, community: Option<SnmpCommunity>)

  datatype SnmpConfig = SnmpConfig(
    communities: seq<SnmpCommunity>, trapReceivers: seq<TrapReceiver>,
    enabledTraps: seq<TrapType>, ownReads: Option<SnmpReads>)

  datatype Credentials = Credentials(username: string, password: Option<string>, port: u16)

  datatype Settings = Settings(sshTimeoutSecs: nat, maxRetries: nat, enforcePortConfig: bool, snmpPort: u16)

  const DEFAULT_SETTINGS := Settings(30, 3, false, 161)

  datatype SwitchConfig = SwitchConfig(
    id: string, hostname: Option<string>, model: Option<SwitchModel>,
    managementIp: Option<string>, credentials: Option<Credentials>,
    vlans: seq<Vlan>, ports: seq<Port>, portMirrors: seq<PortMirror>,
    snmp: Option<SnmpConfig>, managementVlan: Option<u16>, settings: Settings)
}
