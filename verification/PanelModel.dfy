/**
 The records of the panel and of the running Xray core: inbounds with their settings clients
 (database/model/model.go), client traffic rows (xray/client_traffic.go), and the users the core
 holds in memory. Table rows are values; PanelService holds the tables that change.
 */
module PanelModel {

  datatype Protocol = VMess | VLess | Trojan | Shadowsocks | OtherXray | AmneziaWG | NativeWG
  {
    /** AddUser reaches the core only for these four protocols; for the others it returns nil at once. */
    predicate HasUserApi() {
      VMess? || VLess? || Trojan? || Shadowsocks?
    }

    /** Renewal hands AddUser the settings client as it is. For these protocols that is enough; a
        Shadowsocks client has no "cipher" key, and AddUser asserts one. */
    predicate HasRawApi() {
      VMess? || VLess? || Trojan?
    }

    /** The tunnel protocols are served by their own services and never enter the Xray config. */
    predicate RunsInXray() {
      !AmneziaWG? && !NativeWG?
    }
  }

  /** One entry of the "clients" list in an inbound's settings. */
  datatype Client = Client(id: string, password: string, email: string, flow: string,
                           enable: bool, total: int, expiry: int, reset: int)

  /** One client_traffics row; the email column is unique, so rows are kept in a map from email. */
  datatype Row = Row(inboundId: int, enable: bool, up: int, down: int, allTime: int,
                     expiry: int, total: int, reset: int)

  datatype Inbound = Inbound(tag: string, protocol: Protocol, enable: bool,
                             up: int, down: int, allTime: int, total: int, expiry: int,
                             clients: seq<Client>)

  /** A user as the core authenticates it: the flow matters to VLESS only. */
  datatype User = User(email: string, credential: string, flow: string)

  const VISION := "xtls-rprx-vision"
  const VISION_UDP443 := "xtls-rprx-vision-udp443"

  /** The field that names a client inside its inbound: password, email or id. */
  function KeyOf(p: Protocol, c: Client): string {
    match p
    case Trojan => c.password
    case Shadowsocks => c.email
    case _ => c.id
  }

  function Credential(p: Protocol, id: string, password: string): string {
    if p.Trojan? || p.Shadowsocks? then password else id
  }

  /** The user that AddUser creates from a settings client. */
  function ApiUser(p: Protocol, c: Client): User {
    User(c.email, Credential(p, c.id, c.password), if p.VLess? then c.flow else "")
  }

  /** A client as it appears in a generated configuration: every other key has been deleted. */
  datatype ConfigClient = ConfigClient(email: string, id: string, password: string, flow: string)

  function ToConfig(c: Client): ConfigClient {
    ConfigClient(c.email, c.id, c.password, if c.flow == VISION_UDP443 then VISION else c.flow)
  }

  /** The user the core creates when it loads a configuration. */
  function ConfigUser(p: Protocol, c: ConfigClient): User {
    User(c.email, Credential(p, c.id, c.password), if p.VLess? then c.flow else "")
  }

  /** The user a client becomes when the core loads a generated configuration. */
  function LoadedUser(p: Protocol, c: Client): User {
    ConfigUser(p, ToConfig(c))
  }

  /** The client does not have the flow that a configuration rewrites and AddUser does not. */
  predicate PlainFlow(p: Protocol, c: Client) {
    p.VLess? ==> c.flow != VISION_UDP443
  }

  /** Adding a client by API and loading it from the configuration make the same user exactly when
      its flow is not the one the configuration rewrites. */
  lemma ApiUserIsConfigUser(p: Protocol, c: Client)
    ensures ApiUser(p, c) == LoadedUser(p, c) <==> PlainFlow(p, c)
  {
    assert |VISION| != |VISION_UDP443|;
  }

  /** With that flow, no client at all is loaded as the user that AddUser makes. */
  lemma RawFlowIsNeverLoaded(p: Protocol, c: Client, d: Client)
    requires !PlainFlow(p, c)
    ensures LoadedUser(p, d) != ApiUser(p, c)
  {
    assert |VISION| != |VISION_UDP443|;
  }

  /** Lower case of one character; only ASCII letters are folded. */
  function LowerChar(c: char): char {
    if 'A' <= c <= 'Z' then (c as int + 32) as char else c
  }

  function Lower(s: string): (r: string)
    ensures |r| == |s|
  {
    seq(|s|, i requires 0 <= i < |s| => LowerChar(s[i]))
  }
}
