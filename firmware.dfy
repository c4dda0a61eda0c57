/**
  The in-memory state logic of the badge firmware, as values: the badge
  record, the LED flash state machine, the name buffer and its scroll
  bookkeeping, the five command handlers and the dispatcher that decodes a
  datagram, and the state changes of the scheduled actions.  The class in
  module Controller performs these updates in place; this module says what
  each one computes and proves what the firmware promises about them.
 */
module Firmware {
  import opened Bytes
  import opened Scheduler

  // ---------------------------------------------------------------- constants

  const TeamDefault: Byte := 1
  const IdDefault: Byte := 1
  const TeamMax: Byte := 20
  const IdMax: Byte := 99
  /** Teams above this one do not answer Echo. */
  const EchoTeamMax: Byte := 8
  /** Pulses of the acknowledgement flash that Echo starts. */
  const EchoPulses: Byte := 2

  /** sizeof(badge.name) */
  const NameSize: nat := 256
  /** The most name bytes updateName keeps: two bytes stay for "\n" and NUL. */
  const NameLimit: nat := 254
  const Newline: Byte := 10
  const Nul: Byte := 0
  /** "Team 1-1" */
  const NameDefault: seq<Byte> := [84, 101, 97, 109, 32, 49, 45, 49]

  /** SSD1306_LCDWIDTH: where a scroll (re)starts. */
  const LcdWidth: I16 := 128
  const ScrollStepPx: int := 3
  /** The widest name text for which the scroll bookkeeping never wraps an int16_t. */
  const MaxTextWidth: int := 0x8000 - ScrollStepPx

  /** What a one-byte read of the UDP packet yields once it is exhausted: -1 kept in a uint8_t. */
  const ExhaustedRead: Byte := 255

  const OpSetTeamId: Byte := 1
  const OpSetColor: Byte := 2
  const OpSetColorForTeam: Byte := 3
  const OpSetName: Byte := 4
  const OpEcho: Byte := 5

  /** Where an Echo reply goes (NET_SERVER, NET_PORT). */
  const NetServer: seq<Byte> := [10, 13, 37, 100]
  const NetPort: U16 := 11337

  // --------------------------------------------------------------- data model

  datatype Rgb = Rgb(r: Byte, g: Byte, b: Byte)

  const ColorOff := Rgb(0, 0, 0)
  const ColorDefault := Rgb(0, 0, 128)
  const ColorEcho := Rgb(20, 150, 0)

  /** Where flash.color points: the badge's own colour or the constant echo colour. */
  datatype FlashTag = BadgeColor | EchoColor

  datatype Flash = Flash(tag: FlashTag, count: Byte)

  /** The scroll state: `length` is minus the rendered width of the name. */
  datatype Scroll = Scroll(length: I16, offset: I16)

  /** `name` is the whole 256-byte buffer, including what lies past the terminator. */
  datatype Badge = Badge(team: Byte, id: Byte, color: Rgb, name: seq<Byte>, scroll: Scroll)

  datatype State = State(badge: Badge, flash: Flash)

  /** The record saveConfig hands to the file system. */
  datatype Config = Config(team: Byte, id: Byte, color: Rgb, name: seq<Byte>)

  /** An outbound UDP datagram. */
  datatype Reply = Reply(host: seq<Byte>, port: U16, payload: seq<Byte>)

  /** What handling one datagram does: the new state, the replies sent and the records saved. */
  datatype Outcome = Outcome(state: State, replies: seq<Reply>, saved: seq<Config>)

  /** The display's text-bounds routine: the pixel width of a text at text size 2. */
  type Measure = seq<Byte> -> U16

  /** The widths the display reports keep the scroll arithmetic inside int16_t. */
  ghost predicate MeasureFits(measure: Measure)
  {
    forall s :: measure(s) <= MaxTextWidth
  }

  function Constrain(x: int, lo: int, hi: int): (r: int)
    requires lo <= hi
    ensures lo <= r <= hi
    ensures lo <= x <= hi ==> r == x
    ensures x < lo ==> r == lo
    ensures hi < x ==> r == hi
  {
    if x < lo then lo else if x > hi then hi else x
  }

  // -------------------------------------------------------------------- flash

  /** The colour a flash tag designates. */
  function Resolve(tag: FlashTag, badgeColor: Rgb): Rgb
  {
    match tag
    case BadgeColor => badgeColor
    case EchoColor => ColorEcho
  }

  /** A steady flash shows the badge's colour. */
  predicate FlashValid(f: Flash)
  {
    f.count == 0 ==> f.tag == BadgeColor
  }

  /**
    updateColor(color, count): no blinking for 0 pulses, otherwise 2n+1
    half-cycles, the count kept in a uint8_t.
   */
  function Trigger(tag: FlashTag, pulses: Byte): (f: Flash)
    ensures f.tag == tag
    ensures pulses == 0 ==> f.count == 0
    ensures 0 < pulses ==> f.count % 2 == 1
    ensures 0 < pulses < 128 ==> f.count == 2 * pulses + 1
    ensures 128 <= pulses ==> f.count == 2 * pulses + 1 - 0x100
  {
    Flash(tag, if pulses == 0 then 0 else (pulses * 2 + 1) % 0x100)
  }

  /** The colour renderColor puts on the pixel: off when `count & 1` is set, that is on odd counts. */
  function FlashShown(f: Flash, badgeColor: Rgb): Rgb
  {
    if f.count % 2 == 1 then ColorOff else Resolve(f.tag, badgeColor)
  }

  /** The counter update of renderColor. */
  function FlashStep(f: Flash): (g: Flash)
    ensures 0 < f.count ==> g.count == f.count - 1
    ensures f.count == 0 ==> g.count == 0
    ensures g.count == 0 ==> g.tag == BadgeColor
    ensures 0 < g.count ==> g.tag == f.tag
    ensures FlashValid(g)
  {
    var count := if f.count > 0 then f.count - 1 else f.count;
    Flash(if count == 0 then BadgeColor else f.tag, count)
  }

  /** k successive renderColor calls. */
  function FlashRun(f: Flash, k: nat): Flash
    decreases k
  {
    if k == 0 then f else FlashRun(FlashStep(f), k - 1)
  }

  /** The count runs down one per call and then stays steady on the badge colour. */
  lemma {:induction false} FlashRunCounts(f: Flash, k: nat)
    ensures k < f.count ==> FlashRun(f, k) == Flash(f.tag, f.count - k)
    ensures 0 < k && f.count <= k ==> FlashRun(f, k) == Flash(BadgeColor, 0)
    decreases k
  {
    if k > 0 {
      FlashRunCounts(FlashStep(f), k - 1);
    }
  }

  /**
    An n-pulse flash blinks, off first, through its 2n+1 half-cycles (the
    count taken modulo 256) and then rests on the badge colour, whatever it
    was triggered with.
   */
  lemma TriggerSettles(tag: FlashTag, pulses: Byte, badgeColor: Rgb)
    requires 0 < pulses
    ensures var f := Trigger(tag, pulses);
      && FlashRun(f, f.count) == Flash(BadgeColor, 0)
      && forall k :: 0 <= k < f.count ==>
           FlashShown(FlashRun(f, k), badgeColor) == if k % 2 == 0 then ColorOff else Resolve(tag, badgeColor)
  {
    var f := Trigger(tag, pulses);
    FlashRunCounts(f, f.count);
    forall k | 0 <= k < f.count
      ensures FlashShown(FlashRun(f, k), badgeColor) == if k % 2 == 0 then ColorOff else Resolve(tag, badgeColor)
    {
      FlashRunCounts(f, k);
    }
  }

  /**
    Any n-pulse flash is steady on the badge colour after 2n+1 calls; from
    128 pulses on the uint8_t count wraps and it settles sooner.
   */
  lemma TriggerSteadyBy(tag: FlashTag, pulses: Byte)
    requires 0 < pulses
    ensures FlashRun(Trigger(tag, pulses), 2 * pulses + 1) == Flash(BadgeColor, 0)
  {
    FlashRunCounts(Trigger(tag, pulses), 2 * pulses + 1);
  }

  /** For fewer than 128 pulses, the flash is still running before its 2n+1 calls. */
  lemma TriggerSettlesAfter(tag: FlashTag, pulses: Byte)
    requires 0 < pulses < 128
    ensures forall k :: 0 <= k < 2 * pulses + 1 ==> FlashRun(Trigger(tag, pulses), k).count > 0
  {
    var f := Trigger(tag, pulses);
    forall k | 0 <= k < 2 * pulses + 1 ensures FlashRun(f, k).count > 0 {
      FlashRunCounts(f, k);
    }
  }

  // ------------------------------------------------------------------- scroll

  predicate ScrollValid(s: Scroll)
  {
    -MaxTextWidth <= s.length <= 0 && s.length <= s.offset <= LcdWidth
  }

  /** The scroll step of renderName: `offset -= 3` into an int16_t, restart past the end. */
  function ScrollStep(s: Scroll): (t: Scroll)
    ensures t.length == s.length
    ensures -0x8000 + ScrollStepPx <= s.offset ==>
              (s.offset - ScrollStepPx < s.length ==> t.offset == LcdWidth)
              && (s.length <= s.offset - ScrollStepPx ==> t.offset == s.offset - ScrollStepPx)
    ensures ScrollValid(s) ==> ScrollValid(t)
  {
    var o := ToInt16(s.offset - ScrollStepPx);
    if o < s.length then s.(offset := LcdWidth) else s.(offset := o)
  }

  /**
    Without the width bound of ScrollValid the step can leave the range:
    an offset at the bottom of int16_t wraps to the top.
   */
  lemma ScrollStepWraps()
    ensures var s := Scroll(-0x8000, -0x8000);
      && s.length <= 0 && s.length <= s.offset <= LcdWidth
      && ScrollStep(s).offset == 0x8000 - ScrollStepPx
  {
  }

  /** k successive renderName calls. */
  function ScrollRun(s: Scroll, k: nat): Scroll
    decreases k
  {
    if k == 0 then s else ScrollRun(ScrollStep(s), k - 1)
  }

  /** While the text has not scrolled past its end, each call moves it 3 pixels left. */
  lemma {:induction false} ScrollDescends(s: Scroll, k: nat)
    requires ScrollValid(s)
    requires ScrollStepPx * k <= s.offset - s.length
    ensures ScrollRun(s, k) == s.(offset := s.offset - ScrollStepPx * k)
    decreases k
  {
    if k > 0 {
      ScrollDescends(ScrollStep(s), k - 1);
    }
  }

  /** Scrolling is periodic: from the right edge it returns there after (128 - length) / 3 + 1 calls. */
  lemma ScrollPeriod(length: I16)
    requires -MaxTextWidth <= length <= 0
    ensures ScrollRun(Scroll(length, LcdWidth), (LcdWidth - length) / ScrollStepPx + 1) == Scroll(length, LcdWidth)
  {
    var s := Scroll(length, LcdWidth);
    var q := (LcdWidth - length) / ScrollStepPx;
    ScrollDescends(s, q);
    ScrollRunSnoc(s, q);
  }

  lemma {:induction false} ScrollRunSnoc(s: Scroll, k: nat)
    ensures ScrollRun(s, k + 1) == ScrollStep(ScrollRun(s, k))
    decreases k
  {
    if k > 0 {
      ScrollRunSnoc(ScrollStep(s), k - 1);
    }
  }

  // --------------------------------------------------------------------- name

  /** strnlen(s, max) on bytes s, where the end of s acts as the terminator. */
  function CLen(s: seq<Byte>, max: nat): (n: nat)
    ensures n <= max && n <= |s|
    ensures forall j :: 0 <= j < n ==> s[j] != Nul
    ensures n < max && n < |s| ==> s[n] == Nul
  {
    CLenFrom(s, 0, max)
  }

  /** strnlen's scan from position i on. */
  function CLenFrom(s: seq<Byte>, i: nat, max: nat): (n: nat)
    requires i <= max && i <= |s|
    ensures i <= n <= max && n <= |s|
    ensures forall j :: i <= j < n ==> s[j] != Nul
    ensures n < max && n < |s| ==> s[n] == Nul
    decreases max - i
  {
    if i == max || i == |s| || s[i] == Nul then i else CLenFrom(s, i + 1, max)
  }

  /** The contract of CLen determines its value. */
  lemma CLenUnique(s: seq<Byte>, max: nat, n: nat)
    requires n <= max && n <= |s|
    requires forall j :: 0 <= j < n ==> s[j] != Nul
    requires n < max && n < |s| ==> s[n] == Nul
    ensures CLen(s, max) == n
  {
    CLenFromUnique(s, 0, max, n);
  }

  lemma {:induction false} CLenFromUnique(s: seq<Byte>, i: nat, max: nat, n: nat)
    requires i <= n <= max && n <= |s|
    requires forall j :: i <= j < n ==> s[j] != Nul
    requires n < max && n < |s| ==> s[n] == Nul
    ensures CLenFrom(s, i, max) == n
    decreases max - i
  {
    if i < n {
      CLenFromUnique(s, i + 1, max, n);
    }
  }

  /** strncpy(dst, src, n): src up to its terminator, NUL padding up to n, dst beyond n untouched. */
  function StrNCpy(dst: seq<Byte>, src: seq<Byte>, n: nat): (r: seq<Byte>)
    requires n <= |dst|
    ensures |r| == |dst|
    ensures forall m :: 0 <= m < CLen(src, n) ==> r[m] == src[m]
    ensures forall m :: CLen(src, n) <= m < n ==> r[m] == Nul
    ensures forall m :: n <= m < |dst| ==> r[m] == dst[m]
  {
    var k := CLen(src, n);
    seq(|dst|, m requires 0 <= m < |dst| => if m < k then src[m] else if m < n then Nul else dst[m])
  }

  /** The C string a name buffer holds: the text the display prints and measures. */
  function NameText(buf: seq<Byte>): seq<Byte>
  {
    buf[..CLen(buf, |buf|)]
  }

  /** A name buffer as updateName leaves it: a terminated text ending in a newline. */
  predicate NameWellFormed(buf: seq<Byte>)
  {
    && |buf| == NameSize
    && 0 < CLen(buf, NameSize) < NameSize
    && buf[CLen(buf, NameSize) - 1] == Newline
  }

  /** saveConfig's copy of the name: the text without its final newline. */
  function SavedName(buf: seq<Byte>): (s: seq<Byte>)
    requires NameWellFormed(buf)
    ensures s + [Newline] == NameText(buf)
    ensures forall j :: 0 <= j < |s| ==> s[j] != Nul
  {
    SavedLength(buf);
    buf[..CLen(buf, NameSize - 1) - 1]
  }

  /**
    In a well-formed buffer, strnlen capped at 255 finds the same terminator
    as strnlen over all 256 bytes, so cutting one byte off it drops exactly
    the newline.
   */
  lemma SavedLength(buf: seq<Byte>)
    requires NameWellFormed(buf)
    ensures var n := CLen(buf, NameSize - 1);
      && n == CLen(buf, NameSize) > 0
      && buf[..n - 1] + [Newline] == NameText(buf)
      && forall j :: 0 <= j < n - 1 ==> buf[j] != Nul
  {
    var n := CLen(buf, NameSize);
    CLenUnique(buf, NameSize - 1, n);
    assert buf[..n] == buf[..n - 1] + [Newline];
  }

  /** What a name source keeps: at most 254 bytes, up to its first NUL. */
  function NameKept(src: seq<Byte>): (kept: seq<Byte>)
    ensures |kept| <= NameLimit && kept <= src
    ensures forall j :: 0 <= j < |kept| ==> kept[j] != Nul
    ensures |kept| < NameLimit && |kept| < |src| ==> src[|kept|] == Nul
  {
    src[..CLen(src, NameLimit)]
  }

  /** badge.name after updateName(src): strncpy of 254 bytes, then "\n" and NUL right after the kept text. */
  function StoreName(buf: seq<Byte>, src: seq<Byte>): (r: seq<Byte>)
    requires |buf| == NameSize
    ensures |r| == NameSize
  {
    var k := CLen(src, NameLimit);
    StrNCpy(buf, src, NameLimit)[k := Newline][k + 1 := Nul]
  }

  /**
    The stored buffer is a well-formed name whose text is the kept bytes and
    a newline, which saveConfig gives back.
   */
  lemma StoreNameText(buf: seq<Byte>, src: seq<Byte>)
    requires |buf| == NameSize
    ensures var r := StoreName(buf, src);
      && NameWellFormed(r)
      && NameText(r) == NameKept(src) + [Newline]
      && SavedName(r) == NameKept(src)
  {
    var k := CLen(src, NameLimit);
    var r := StoreName(buf, src);
    TerminatedText(buf, src);
    var saved := SavedName(r);
    assert saved == (saved + [Newline])[..k];
  }

  /** The strncpy padding is NUL, and bytes 254 and 255 keep their old value unless the terminators land on them. */
  lemma StoreNamePadding(buf: seq<Byte>, src: seq<Byte>)
    requires |buf| == NameSize
    ensures var r := StoreName(buf, src); var k := |NameKept(src)|;
      && (forall j :: k + 1 < j < NameLimit ==> r[j] == Nul)
      && (forall j :: NameLimit <= j < NameSize && k + 1 < j ==> r[j] == buf[j])
  {
  }

  /** The text of the terminated copy is the kept bytes and the newline. */
  lemma TerminatedText(buf: seq<Byte>, src: seq<Byte>)
    requires |buf| == NameSize
    ensures var k := CLen(src, NameLimit);
      var r := StrNCpy(buf, src, NameLimit)[k := Newline][k + 1 := Nul];
      && CLen(r, NameSize) == k + 1
      && NameText(r) == src[..k] + [Newline]
  {
    var k := CLen(src, NameLimit);
    var c := StrNCpy(buf, src, NameLimit);
    assert c[..k] == src[..k];
    TerminateAt(c, k);
  }

  /** Writing "\n" and NUL at k and k + 1 after k non-NUL bytes makes a C string of k + 1 bytes. */
  lemma TerminateAt(c: seq<Byte>, k: nat)
    requires k + 1 < |c|
    requires forall j :: 0 <= j < k ==> c[j] != Nul
    ensures var r := c[k := Newline][k + 1 := Nul];
      CLen(r, |r|) == k + 1 && NameText(r) == c[..k] + [Newline]
  {
    var r := c[k := Newline][k + 1 := Nul];
    CLenUnique(r, |r|, k + 1);
    assert r[..k + 1] == c[..k] + [Newline];
  }

  /** getTextBounds at text size 2: the width of the text a name buffer holds. */
  function TextWidth(measure: Measure, buf: seq<Byte>): U16
  {
    measure(NameText(buf))
  }

  /** The scroll updateName restarts: length minus the text width (into an int16_t), offset at the right edge. */
  function RestartScroll(measure: Measure, buf: seq<Byte>): Scroll
  {
    Scroll(ToInt16(-(TextWidth(measure, buf) as int)), LcdWidth)
  }

  /** The badge after updateName: new buffer, scroll restarted with the measured width. */
  function WithName(b: Badge, src: seq<Byte>, measure: Measure): Badge
    requires |b.name| == NameSize
  {
    var name := StoreName(b.name, src);
    b.(name := name, scroll := RestartScroll(measure, name))
  }

  /** updateName changes the buffer and the scroll of the badge, and nothing else. */
  lemma WithNameFields(b: Badge, src: seq<Byte>, measure: Measure)
    requires |b.name| == NameSize
    ensures var b' := WithName(b, src, measure);
      b' == Badge(b.team, b.id, b.color, StoreName(b.name, src), RestartScroll(measure, StoreName(b.name, src)))
  {
  }

  /** The name update keeps the scroll state valid when the measured width fits. */
  lemma WithNameValid(b: Badge, src: seq<Byte>, measure: Measure)
    requires |b.name| == NameSize && MeasureFits(measure)
    ensures var b' := WithName(b, src, measure);
      && NameWellFormed(b'.name) && ScrollValid(b'.scroll)
      && b'.scroll == Scroll(-(TextWidth(measure, b'.name) as int), LcdWidth)
      && b'.scroll.offset == LcdWidth
      && SavedName(b'.name) == NameKept(src)
  {
    var name := StoreName(b.name, src);
    StoreNameText(b.name, src);
    assert TextWidth(measure, name) <= MaxTextWidth;
  }

  /** The record saveConfig writes. */
  function ConfigOf(b: Badge): (c: Config)
    requires NameWellFormed(b.name)
    ensures c.team == b.team && c.id == b.id && c.color == b.color
    ensures c.name + [Newline] == NameText(b.name)
  {
    Config(b.team, b.id, b.color, SavedName(b.name))
  }

  // ------------------------------------------------------------- whole badge

  predicate StateValid(st: State)
  {
    && 1 <= st.badge.team && 1 <= st.badge.id
    && NameWellFormed(st.badge.name)
    && ScrollValid(st.badge.scroll)
    && FlashValid(st.flash)
  }

  /** A configuration record as the JSON parser delivers it; `color` is [] when absent. */
  datatype StoredConfig = StoredConfig(team: int, id: int, color: seq<int>, name: seq<Byte>)

  datatype Option<T> = None | Some(value: T)

  /** The fields setup takes from a parsed configuration record. */
  function LoadConfig(b: Badge, c: StoredConfig, measure: Measure): (b': Badge)
    requires |b.name| == NameSize
    ensures 1 <= b'.team <= 255 && 1 <= b'.id <= 255
    ensures 1 <= c.team <= 255 ==> b'.team == c.team
    ensures c.team < 1 ==> b'.team == 1
    ensures 255 < c.team ==> b'.team == 255
    ensures 1 <= c.id <= 255 ==> b'.id == c.id
    ensures c.id < 1 ==> b'.id == 1
    ensures 255 < c.id ==> b'.id == 255
    ensures b'.color == StoredColor(c)
    ensures |c.color| != 3 ==> b'.color == ColorDefault
    ensures |c.color| == 3 && (forall j :: 0 <= j < 3 ==> 0 <= c.color[j] <= 255) ==>
              b'.color == Rgb(c.color[0], c.color[1], c.color[2])
  {
    var b0 := b.(team := Constrain(c.team, 1, 255), id := Constrain(c.id, 1, 255), color := StoredColor(c));
    WithName(b0, c.name, measure)
  }

  /** The colour of a configuration record: three components clamped to 0..255, or the default. */
  function StoredColor(c: StoredConfig): (rgb: Rgb)
    ensures |c.color| != 3 ==> rgb == ColorDefault
    ensures |c.color| == 3 ==> forall j :: 0 <= j < 3 ==>
      && (0 <= c.color[j] <= 255 ==> Channel(rgb, j) == c.color[j])
      && (c.color[j] < 0 ==> Channel(rgb, j) == 0)
      && (255 < c.color[j] ==> Channel(rgb, j) == 255)
  {
    if |c.color| == 3
    then Rgb(Constrain(c.color[0], 0, 255), Constrain(c.color[1], 0, 255), Constrain(c.color[2], 0, 255))
    else ColorDefault
  }

  /** Component j of a colour: red, green, blue. */
  function Channel(rgb: Rgb, j: nat): Byte
    requires j < 3
  {
    if j == 0 then rgb.r else if j == 1 then rgb.g else rgb.b
  }

  /** The stored name is kept as updateName keeps any name, and the scroll restarts validly. */
  lemma LoadConfigName(b: Badge, c: StoredConfig, measure: Measure)
    requires |b.name| == NameSize && MeasureFits(measure)
    ensures var b' := LoadConfig(b, c, measure);
      NameWellFormed(b'.name) && SavedName(b'.name) == NameKept(c.name) && ScrollValid(b'.scroll)
  {
    WithNameValid(b.(team := Constrain(c.team, 1, 255), id := Constrain(c.id, 1, 255), color := StoredColor(c)), c.name, measure);
  }

  /** The state setup leaves: defaults, then the stored configuration if one was read, then a steady flash. */
  function Boot(measure: Measure, stored: Option<StoredConfig>): (st: State)
    ensures NameWellFormed(st.badge.name)
  {
    var blank := Badge(TeamDefault, IdDefault, ColorDefault, seq(NameSize, _ => Nul), Scroll(0, 0));
    StoreNameText(blank.name, NameDefault);
    var b := WithName(blank, NameDefault, measure);
    if stored.Some? then
      StoreNameText(b.name, stored.value.name);
      State(LoadConfig(b, stored.value, measure), Trigger(BadgeColor, 0))
    else
      State(b, Trigger(BadgeColor, 0))
  }

  lemma BootValid(measure: Measure, stored: Option<StoredConfig>)
    requires MeasureFits(measure)
    ensures StateValid(Boot(measure, stored))
    ensures stored == None ==> var b := Boot(measure, stored).badge;
      && b.team == TeamDefault && b.id == IdDefault && b.color == ColorDefault
      && SavedName(b.name) == NameDefault
    ensures Boot(measure, stored).flash == Flash(BadgeColor, 0)
  {
    var blank := Badge(TeamDefault, IdDefault, ColorDefault, seq(NameSize, _ => Nul), Scroll(0, 0));
    var b := WithName(blank, NameDefault, measure);
    WithNameValid(blank, NameDefault, measure);
    DefaultNameKept();
    if stored.Some? {
      LoadConfigName(b, stored.value, measure);
    }
  }

  /** The default name has no NUL and fits, so it is kept whole. */
  lemma DefaultNameKept()
    ensures NameKept(NameDefault) == NameDefault
  {
    CLenUnique(NameDefault, NameLimit, |NameDefault|);
  }

  // ----------------------------------------------------------------- commands

  /** A one-byte read of the payload at position i. */
  function ReadAt(p: seq<Byte>, i: nat): (b: Byte)
    ensures i < |p| ==> b == p[i]
    ensures |p| <= i ==> b == ExhaustedRead
  {
    if i < |p| then p[i] else ExhaustedRead
  }

  /** handleTeamChange: team and id bytes, each constrained into range, then saved. */
  function TeamChange(st: State, p: seq<Byte>): Outcome
    requires NameWellFormed(st.badge.name)
  {
    var b := st.badge.(team := Constrain(ReadAt(p, 0), 1, TeamMax), id := Constrain(ReadAt(p, 1), 1, IdMax));
    Outcome(st.(badge := b), [], [ConfigOf(b)])
  }

  /** handleColorChange with the payload cursor at `at`: r, g and b bytes, then saved. */
  function ColorChange(st: State, p: seq<Byte>, at: nat): Outcome
    requires NameWellFormed(st.badge.name)
  {
    var color := Rgb(Constrain(ReadAt(p, at), 0, 255), Constrain(ReadAt(p, at + 1), 0, 255),
                     Constrain(ReadAt(p, at + 2), 0, 255));
    var b := st.badge.(color := color);
    Outcome(st.(badge := b), [], [ConfigOf(b)])
  }

  /** handleTeamColorChange: a colour change for the badges of one (constrained) team. */
  function TeamColorChange(st: State, p: seq<Byte>): Outcome
    requires NameWellFormed(st.badge.name)
  {
    var team := Constrain(ReadAt(p, 0), 1, TeamMax);
    if team == st.badge.team then ColorChange(st, p, 1) else Outcome(st, [], [])
  }

  /** handleNameChange: the rest of the datagram, at most 254 bytes, becomes the name. */
  function NameChange(st: State, p: seq<Byte>, measure: Measure): Outcome
    requires NameWellFormed(st.badge.name)
  {
    var length := if |p| < NameLimit then |p| else NameLimit;
    StoreNameText(st.badge.name, p[..length]);
    var b := WithName(st.badge, p[..length], measure);
    Outcome(st.(badge := b), [], [ConfigOf(b)])
  }

  /** handleEcho: badges of teams 1..8 answer [5, team, id] and flash the echo colour twice. */
  function EchoRequest(st: State): Outcome
  {
    if st.badge.team > EchoTeamMax then Outcome(st, [], [])
    else
      var reply := Reply(NetServer, NetPort, [OpEcho, st.badge.team, st.badge.id]);
      Outcome(st.(flash := Trigger(EchoColor, EchoPulses)), [reply], [])
  }

  /** handleRequests: opcode byte, then the handler of opcodes 1..5; anything else is dropped. */
  function Dispatch(st: State, dg: seq<Byte>, measure: Measure): Outcome
    requires NameWellFormed(st.badge.name)
  {
    if |dg| == 0 then Outcome(st, [], [])
    else
      var p := dg[1..];
      match dg[0]
      case 1 => TeamChange(st, p)
      case 2 => ColorChange(st, p, 0)
      case 3 => TeamColorChange(st, p)
      case 4 => NameChange(st, p, measure)
      case 5 => EchoRequest(st)
      case _ => Outcome(st, [], [])
  }

  // -------------------------------------------------------- command properties

  /** The handler table: which handler each opcode selects. */
  lemma DispatchOpcode(st: State, dg: seq<Byte>, measure: Measure)
    requires NameWellFormed(st.badge.name)
    ensures |dg| == 0 ==> Dispatch(st, dg, measure) == Outcome(st, [], [])
    ensures |dg| > 0 && dg[0] == OpSetTeamId ==> Dispatch(st, dg, measure) == TeamChange(st, dg[1..])
    ensures |dg| > 0 && dg[0] == OpSetColor ==> Dispatch(st, dg, measure) == ColorChange(st, dg[1..], 0)
    ensures |dg| > 0 && dg[0] == OpSetColorForTeam ==> Dispatch(st, dg, measure) == TeamColorChange(st, dg[1..])
    ensures |dg| > 0 && dg[0] == OpSetName ==> Dispatch(st, dg, measure) == NameChange(st, dg[1..], measure)
    ensures |dg| > 0 && dg[0] == OpEcho ==> Dispatch(st, dg, measure) == EchoRequest(st)
    ensures |dg| > 0 && (dg[0] == 0 || dg[0] > OpEcho) ==> Dispatch(st, dg, measure) == Outcome(st, [], [])
  {
  }

  /** The payload after the opcode, read from position i, is the datagram read from i + 1. */
  lemma ReadShift(dg: seq<Byte>, i: nat)
    requires |dg| > 0
    ensures ReadAt(dg[1..], i) == ReadAt(dg, i + 1)
  {
  }

  lemma NameChangeValid(st: State, p: seq<Byte>, measure: Measure)
    requires StateValid(st) && MeasureFits(measure)
    ensures StateValid(NameChange(st, p, measure).state)
  {
    var length := if |p| < NameLimit then |p| else NameLimit;
    WithNameValid(st.badge, p[..length], measure);
  }

  /** Every datagram keeps the badge state valid. */
  lemma DispatchValid(st: State, dg: seq<Byte>, measure: Measure)
    requires StateValid(st) && MeasureFits(measure)
    ensures StateValid(Dispatch(st, dg, measure).state)
  {
    DispatchOpcode(st, dg, measure);
    if |dg| > 0 && dg[0] == OpSetName {
      NameChangeValid(st, dg[1..], measure);
    }
  }

  /** An empty datagram, or one whose opcode is 0 or above 5, changes nothing and is not answered. */
  lemma UnknownOpcodeIgnored(st: State, dg: seq<Byte>, measure: Measure)
    requires NameWellFormed(st.badge.name)
    requires |dg| == 0 || dg[0] == 0 || dg[0] > OpEcho
    ensures Dispatch(st, dg, measure) == Outcome(st, [], [])
  {
    DispatchOpcode(st, dg, measure);
  }

  /**
    SetTeamId leaves team in 1..20 and id in 1..99, each equal to its byte
    when the byte is in range and to the bound nearest it otherwise (a
    missing byte reads as 255); nothing else changes and the badge is saved once.
   */
  lemma SetTeamIdClamps(st: State, dg: seq<Byte>, measure: Measure)
    requires NameWellFormed(st.badge.name)
    requires |dg| > 0 && dg[0] == OpSetTeamId
    ensures var o := Dispatch(st, dg, measure); var b := o.state.badge;
      && 1 <= b.team <= TeamMax && 1 <= b.id <= IdMax
      && (|dg| > 1 && 1 <= dg[1] <= TeamMax ==> b.team == dg[1])
      && (|dg| > 1 && dg[1] == 0 ==> b.team == 1)
      && (|dg| <= 1 || TeamMax < dg[1] ==> b.team == TeamMax)
      && (|dg| > 2 && 1 <= dg[2] <= IdMax ==> b.id == dg[2])
      && (|dg| > 2 && dg[2] == 0 ==> b.id == 1)
      && (|dg| <= 2 || IdMax < dg[2] ==> b.id == IdMax)
      && b.color == st.badge.color && b.name == st.badge.name && b.scroll == st.badge.scroll
      && o.state.flash == st.flash
      && o.replies == [] && o.saved == [ConfigOf(b)]
  {
    DispatchOpcode(st, dg, measure);
    ReadShift(dg, 0);
    ReadShift(dg, 1);
  }

  /**
    SetColor takes the next three bytes as the colour and touches nothing
    else; a flash that shows the badge colour shows the new one at once.
   */
  lemma SetColorApplies(st: State, dg: seq<Byte>, measure: Measure)
    requires NameWellFormed(st.badge.name)
    requires |dg| > 0 && dg[0] == OpSetColor
    ensures var o := Dispatch(st, dg, measure); var b := o.state.badge;
      && b.color == Rgb(ReadAt(dg, 1), ReadAt(dg, 2), ReadAt(dg, 3))
      && b == st.badge.(color := b.color)
      && o.state.flash == st.flash
      && (st.flash.tag == BadgeColor && st.flash.count % 2 == 0 ==> FlashShown(o.state.flash, b.color) == b.color)
      && o.replies == [] && o.saved == [ConfigOf(b)]
  {
    DispatchOpcode(st, dg, measure);
    ReadShift(dg, 0);
    ReadShift(dg, 1);
    ReadShift(dg, 2);
  }

  /**
    SetColorForTeam: when the constrained team byte differs from the badge's
    team nothing changes and nothing is saved; when it matches, the colour
    becomes the next three bytes, as with SetColor.
   */
  lemma TeamColorFilter(st: State, dg: seq<Byte>, measure: Measure)
    requires NameWellFormed(st.badge.name)
    requires |dg| > 0 && dg[0] == OpSetColorForTeam
    ensures var o := Dispatch(st, dg, measure);
      Constrain(ReadAt(dg, 1), 1, TeamMax) != st.badge.team ==> o == Outcome(st, [], [])
    ensures var o := Dispatch(st, dg, measure); var b := o.state.badge;
      Constrain(ReadAt(dg, 1), 1, TeamMax) == st.badge.team ==>
        && b == st.badge.(color := Rgb(ReadAt(dg, 2), ReadAt(dg, 3), ReadAt(dg, 4)))
        && o.state.flash == st.flash
        && o.replies == [] && o.saved == [ConfigOf(b)]
  {
    DispatchOpcode(st, dg, measure);
    ReadShift(dg, 0);
    ReadShift(dg, 1);
    ReadShift(dg, 2);
    ReadShift(dg, 3);
  }

  /**
    Echo: a badge of a team above 8 stays silent and keeps its flash; any
    other badge sends exactly [5, team, id] to the rendezvous address and
    starts a two-pulse echo-colour flash.  Nothing is saved.
   */
  lemma EchoFilter(st: State, dg: seq<Byte>, measure: Measure)
    requires NameWellFormed(st.badge.name)
    requires |dg| > 0 && dg[0] == OpEcho
    ensures var o := Dispatch(st, dg, measure);
      st.badge.team > EchoTeamMax ==> o == Outcome(st, [], [])
    ensures var o := Dispatch(st, dg, measure);
      st.badge.team <= EchoTeamMax ==>
        && o.state.badge == st.badge
        && o.state.flash == Flash(EchoColor, 5)
        && o.replies == [Reply(NetServer, NetPort, [5, st.badge.team, st.badge.id])]
        && o.saved == []
  {
    DispatchOpcode(st, dg, measure);
  }

  /** handleNameChange on its payload: the kept bytes become the text and are what is saved. */
  lemma NameChangeKeeps(st: State, p: seq<Byte>, measure: Measure)
    requires NameWellFormed(st.badge.name)
    ensures var o := NameChange(st, p, measure); var b := o.state.badge;
      var n := if |p| < NameLimit then |p| else NameLimit;
      && NameText(b.name) == NameKept(p[..n]) + [Newline]
      && b.scroll.offset == LcdWidth
      && b.team == st.badge.team && b.id == st.badge.id && b.color == st.badge.color
      && o.state.flash == st.flash
      && o.replies == []
      && o.saved == [Config(b.team, b.id, b.color, NameKept(p[..n]))]
  {
    var n := if |p| < NameLimit then |p| else NameLimit;
    StoreNameText(st.badge.name, p[..n]);
  }

  /** A NUL-free source of at most 254 bytes is kept whole. */
  lemma NulFreeKept(src: seq<Byte>)
    requires |src| <= NameLimit
    requires forall j :: 0 <= j < |src| ==> src[j] != Nul
    ensures NameKept(src) == src
  {
    CLenUnique(src, NameLimit, |src|);
  }

  /**
    SetName keeps the first min(remaining, 254) bytes up to any NUL, ends
    them with "\n" and NUL, restarts the scroll at the right edge, and
    saveConfig writes exactly the kept bytes back.
   */
  lemma SetNameRoundTrip(st: State, dg: seq<Byte>, measure: Measure)
    requires NameWellFormed(st.badge.name)
    requires |dg| > 0 && dg[0] == OpSetName
    ensures var o := Dispatch(st, dg, measure); var b := o.state.badge;
      var p := dg[1..]; var n := if |p| < NameLimit then |p| else NameLimit;
      && NameText(b.name) == NameKept(p[..n]) + [Newline]
      && b.scroll.offset == LcdWidth
      && b.team == st.badge.team && b.id == st.badge.id && b.color == st.badge.color
      && o.state.flash == st.flash
      && o.replies == []
      && o.saved == [Config(b.team, b.id, b.color, NameKept(p[..n]))]
  {
    DispatchOpcode(st, dg, measure);
    NameChangeKeeps(st, dg[1..], measure);
  }

  /** A NUL-free name of at most 254 bytes is saved exactly as sent. */
  lemma SetNameSavesVerbatim(st: State, dg: seq<Byte>, measure: Measure)
    requires NameWellFormed(st.badge.name)
    requires |dg| > 0 && dg[0] == OpSetName && |dg| - 1 <= NameLimit
    requires forall j :: 1 <= j < |dg| ==> dg[j] != Nul
    ensures var o := Dispatch(st, dg, measure);
      |o.saved| == 1 && o.saved[0].name == dg[1..] && NameText(o.state.badge.name) == dg[1..] + [Newline]
  {
    SetNameRoundTrip(st, dg, measure);
    var src := dg[1..];
    assert src[..|src|] == src;
    NulFreeKept(src);
  }

  /** Datagram [1, 5, 12] on the default badge sets team 5, id 12 and saves once. */
  lemma TeamScenario(measure: Measure)
    requires MeasureFits(measure)
    ensures var st := Boot(measure, None); var o := Dispatch(st, [1, 5, 12], measure);
      && o.state.badge.team == 5 && o.state.badge.id == 12 && |o.saved| == 1
  {
    BootValid(measure, None);
    SetTeamIdClamps(Boot(measure, None), [1, 5, 12], measure);
  }

  /** Datagram [2, 255, 0, 128] on the freshly booted badge changes the colour and shows it at once. */
  lemma ColorScenario(measure: Measure, stored: Option<StoredConfig>)
    requires MeasureFits(measure)
    ensures var st := Boot(measure, stored); var o := Dispatch(st, [2, 255, 0, 128], measure);
      && o.state.badge.color == Rgb(255, 0, 128)
      && FlashShown(o.state.flash, o.state.badge.color) == Rgb(255, 0, 128)
  {
    BootValid(measure, stored);
    SetColorApplies(Boot(measure, stored), [2, 255, 0, 128], measure);
  }

  // -------------------------------------------------------- scheduled actions

  /** What the scheduled actions have done: the new state and the colours shown on the pixel. */
  datatype Effect = Effect(state: State, shown: seq<Rgb>)

  /** The modelled part of one callback: renderName steps the scroll, renderColor the flash. */
  function Act(st: State, a: Action): (e: Effect)
  {
    match a
    case RenderName => Effect(st.(badge := st.badge.(scroll := ScrollStep(st.badge.scroll))), [])
    case RenderColor =>
      Effect(st.(flash := FlashStep(st.flash)), [FlashShown(st.flash, st.badge.color)])
    case _ => Effect(st, [])
  }

  /** The callbacks of `acts`, in order. */
  function Perform(st: State, acts: seq<Action>): (e: Effect)
    decreases |acts|
  {
    if acts == [] then Effect(st, [])
    else
      var n := |acts| - 1;
      var e := Perform(st, acts[..n]);
      var e' := Act(e.state, acts[n]);
      Effect(e'.state, e.shown + e'.shown)
  }

  /** The scheduled actions only read the badge record except for its scroll, and keep it valid. */
  lemma {:induction false} PerformValid(st: State, acts: seq<Action>)
    requires StateValid(st)
    ensures var e := Perform(st, acts);
      && StateValid(e.state)
      && e.state.badge == st.badge.(scroll := e.state.badge.scroll)
    decreases |acts|
  {
    if acts != [] {
      PerformValid(st, acts[..|acts| - 1]);
    }
  }

  /**
    One poll of the firmware's table: the scroll steps iff the renderName
    entry is due, the flash steps and the pixel is set iff the renderColor
    entry is due, and nothing else of the state changes.
   */
  lemma TickEffect(st: State, tasks: seq<Task>, now: U32)
    requires TableShape(tasks)
    ensures var e := Perform(st, Fired(tasks, now));
      && e.state.badge == st.badge.(scroll := if Due(tasks[0], now) then ScrollStep(st.badge.scroll) else st.badge.scroll)
      && e.state.flash == (if Due(tasks[3], now) then FlashStep(st.flash) else st.flash)
      && e.shown == (if Due(tasks[3], now) then [FlashShown(st.flash, st.badge.color)] else [])
  {
    TableFires(tasks, now);
    var f0 := if Due(tasks[0], now) then [RenderName] else [];
    var f1 := if Due(tasks[1], now) then [RenderRssi] else [];
    var f2 := if Due(tasks[2], now) then [RenderTeam] else [];
    var f3 := if Due(tasks[3], now) then [RenderColor] else [];
    PerformAppend(st, f0 + f1 + f2, f3);
    PerformAppend(st, f0 + f1, f2);
    PerformAppend(st, f0, f1);
    var e0 := Perform(st, f0);
    PerformOne(st, RenderName);
    PerformOne(e0.state, RenderRssi);
    PerformOne(e0.state, RenderTeam);
    PerformOne(e0.state, RenderColor);
  }

  /** Performing one more action runs it on the state the earlier ones left. */
  lemma PerformSnoc(st: State, acts: seq<Action>, a: Action)
    ensures var e := Perform(st, acts); var e' := Act(e.state, a);
      Perform(st, acts + [a]) == Effect(e'.state, e.shown + e'.shown)
  {
    assert (acts + [a])[..|acts|] == acts;
  }

  lemma PerformOne(st: State, a: Action)
    ensures Perform(st, [a]) == Act(st, a)
  {
    assert [a][..0] == [];
  }

  /** Performing a concatenation performs its parts in turn. */
  lemma {:induction false} PerformAppend(st: State, xs: seq<Action>, ys: seq<Action>)
    ensures var e := Perform(st, xs); var e' := Perform(e.state, ys);
      Perform(st, xs + ys) == Effect(e'.state, e.shown + e'.shown)
    decreases |ys|
  {
    if ys != [] {
      var n := |ys| - 1;
      assert (xs + ys)[..|xs + ys| - 1] == xs + ys[..n];
      PerformAppend(st, xs, ys[..n]);
    } else {
      assert xs + ys == xs;
    }
  }

}
