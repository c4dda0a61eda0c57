/**
  The payloads of the badge configuration tool: one datagram per command,
  the opcode byte first, the arguments clamped into the ranges the tool
  allows and then stored into a byte buffer.
 */
module BadgeConf {
  import opened Bytes

  /** The configured ranges and opcodes. */
  const MaxTeam: int := 50
  const MaxId: int := 99
  const CmdTeam: Byte := 1
  const CmdColor: Byte := 2
  const CmdTeamColor: Byte := 3
  const CmdName: Byte := 4
  const CmdEcho: Byte := 5

  /** clamp(v, a, b), on integer arguments. */
  function Clamp(v: int, a: int, b: int): (r: int)
    ensures a <= b ==> a <= r <= b
    ensures a <= v <= b ==> r == v
    ensures v < a ==> r == a
    ensures a <= v && b < v ==> r == b
  {
    if v < a then a else if v > b then b else v
  }

  /** A number stored into a byte buffer: its value modulo 256. */
  function ToByte(v: int): (b: Byte)
    ensures 0 <= v < 0x100 ==> b == v
    ensures (v - b) % 0x100 == 0
  {
    v % 0x100
  }

  /** updateTeam: [team opcode, team clamped to 1..50, id clamped to 1..99]. */
  function UpdateTeam(team: int, id: int): (p: seq<Byte>)
    ensures |p| == 3 && p[0] == CmdTeam
    ensures 1 <= p[1] <= MaxTeam && 1 <= p[2] <= MaxId
    ensures p[1] == Clamp(team, 1, MaxTeam) && p[2] == Clamp(id, 1, MaxId)
  {
    [CmdTeam, ToByte(Clamp(team, 1, MaxTeam)), ToByte(Clamp(id, 1, MaxId))]
  }

  /** updateColor: [colour opcode, r, g, b], each clamped to 0..255. */
  function UpdateColor(r: int, g: int, b: int): (p: seq<Byte>)
    ensures |p| == 4 && p[0] == CmdColor
    ensures p[1] == Clamp(r, 0, 255) && p[2] == Clamp(g, 0, 255) && p[3] == Clamp(b, 0, 255)
  {
    [CmdColor, ToByte(Clamp(r, 0, 255)), ToByte(Clamp(g, 0, 255)), ToByte(Clamp(b, 0, 255))]
  }

  /** updateTeamColor: [team-colour opcode, team as given, r, g, b]; the team is not clamped. */
  function UpdateTeamColor(team: int, r: int, g: int, b: int): (p: seq<Byte>)
    ensures |p| == 5 && p[0] == CmdTeamColor
    ensures p[1] == ToByte(team)
    ensures p[2] == Clamp(r, 0, 255) && p[3] == Clamp(g, 0, 255) && p[4] == Clamp(b, 0, 255)
  {
    [CmdTeamColor, ToByte(team), ToByte(Clamp(r, 0, 255)), ToByte(Clamp(g, 0, 255)), ToByte(Clamp(b, 0, 255))]
  }

  /** updateName: the name opcode followed by the name's bytes. */
  function UpdateName(name: seq<Byte>): (p: seq<Byte>)
    ensures |p| == |name| + 1 && p[0] == CmdName && p[1..] == name
  {
    [CmdName] + name
  }

  /** sendEcho: the echo opcode alone. */
  function SendEcho(): (p: seq<Byte>)
    ensures p == [CmdEcho]
  {
    [CmdEcho]
  }

  /** Command 6: the team, colour and name payloads for one badge, sent in that order. */
  function ConfigureBadge(team: int, id: int, r: int, g: int, b: int, name: seq<Byte>): (ps: seq<seq<Byte>>)
  {
    [UpdateTeam(team, id), UpdateColor(r, g, b), UpdateName(name)]
  }
}
