/**
  The badge firmware's globals and the routines that update them in place:
  the badge record (team, id, colour, the 256-byte name buffer and its
  scroll), the flash state, and the event table.  Every method is proved
  against the value functions of module Firmware and module Scheduler.
 */
module Controller {
  import opened Bytes
  import opened Scheduler
  import opened Firmware

  class BadgeController {
    var team: Byte
    var id: Byte
    var color: Rgb
    /** badge.name */
    const name: array<Byte>
    /** badge.scroll */
    var scrollLength: I16
    var scrollOffset: I16
    /** flash.color, as which colour it points at, and flash.count */
    var flashTag: FlashTag
    var flashCount: Byte
    /** event[] */
    const events: array<Task>
    /** The display's text-bounds routine. */
    const measure: Measure

    /** The globals as a value. */
    ghost function Snapshot(): State
      reads this, name
    {
      State(Badge(team, id, color, name[..], Scroll(scrollLength, scrollOffset)), Flash(flashTag, flashCount))
    }

    ghost predicate Valid()
      reads this, name, events
    {
      && name.Length == NameSize
      && MeasureFits(measure)
      && StateValid(Snapshot())
      && TableShape(events[..])
    }

    /** setup: the defaults, the stored configuration if there is one, a steady flash. */
    constructor (measure: Measure, stored: Option<StoredConfig>)
      requires MeasureFits(measure)
      ensures Valid()
      ensures Snapshot() == Boot(measure, stored)
      ensures events[..] == Table
      ensures fresh(name) && fresh(events)
    {
      this.measure := measure;
      name := new Byte[NameSize](_ => Nul);
      events := new Task[] [Table[0], Table[1], Table[2], Table[3]];
      team := TeamDefault;
      id := IdDefault;
      color := ColorDefault;
      scrollLength := 0;
      scrollOffset := 0;
      flashTag := BadgeColor;
      flashCount := 0;
      new;
      ghost var blank := Badge(TeamDefault, IdDefault, ColorDefault, seq(NameSize, _ => Nul), Scroll(0, 0));
      assert name[..] == blank.name;
      assert events[..] == Table;
      UpdateName(NameDefault);
      ghost var b := WithName(blank, NameDefault, measure);
      assert Snapshot().badge == b;
      if stored.Some? {
        ApplyConfig(stored.value);
      }
      UpdateColor(BadgeColor, 0);
      assert Snapshot() == Boot(measure, stored);
      BootValid(measure, stored);
    }

    /** The part of setup that takes team, id, colour and name from a parsed configuration record. */
    method ApplyConfig(c: StoredConfig)
      requires name.Length == NameSize
      modifies this, name
      ensures Snapshot() == old(Snapshot()).(badge := LoadConfig(old(Snapshot()).badge, c, measure))
    {
      ghost var b := Snapshot().badge;
      team, id, color := Constrain(c.team, 1, 255), Constrain(c.id, 1, 255), StoredColor(c);
      ghost var b0 := b.(team := team, id := id, color := color);
      assert Snapshot().badge == b0;
      UpdateName(c.name);
    }

    /**
      updateName: strncpy of at most 254 bytes, "\n" and NUL after them, the
      scroll restarted with the width of the stored text.  The width is taken
      of the bytes the writes below store, so it is set before them.
     */
    method UpdateName(src: seq<Byte>)
      requires name.Length == NameSize
      modifies this, name
      ensures Snapshot() == old(Snapshot()).(badge := WithName(old(Snapshot()).badge, src, measure))
    {
      ghost var b := Snapshot().badge;
      WithNameFields(b, src, measure);
      var stored := StoreName(name[..], src);
      SetScroll(stored);
      CopyName(src);
    }

    /** The scroll restart of updateName for the text the buffer `buf` holds. */
    method SetScroll(buf: seq<Byte>)
      modifies this
      ensures Scroll(scrollLength, scrollOffset) == RestartScroll(measure, buf)
      ensures team == old(team) && id == old(id) && color == old(color)
      ensures flashTag == old(flashTag) && flashCount == old(flashCount)
    {
      var width := TextWidth(measure, buf);
      scrollLength, scrollOffset := ToInt16(-(width as int)), LcdWidth;
    }

    /** The buffer writes of updateName: the strncpy, then "\n" and NUL right after the kept bytes. */
    method CopyName(src: seq<Byte>)
      requires name.Length == NameSize
      modifies name
      ensures name[..] == StoreName(old(name[..]), src)
    {
      ghost var c := StrNCpy(name[..], src, NameLimit);
      var k := CLen(src, NameLimit);
      forall m | 0 <= m < NameLimit {
        name[m] := if m < k then src[m] else Nul;
      }
      assert name[..] == c;
      name[k] := Newline;
      ghost var c1: seq<Byte> := c[k := Newline];
      assert name[..] == c1;
      name[k + 1] := Nul;
    }

    /** updateColor: 2n+1 half-cycles of the given colour, kept in a uint8_t. */
    method UpdateColor(tag: FlashTag, pulses: Byte)
      modifies this
      ensures Snapshot() == old(Snapshot()).(flash := Trigger(tag, pulses))
    {
      flashCount := if pulses == 0 then 0 else (pulses * 2 + 1) % 0x100;
      flashTag := tag;
    }

    /** saveConfig: team, id, colour and the name without its trailing newline. */
    method SaveConfig() returns (cfg: Config)
      requires Valid()
      ensures cfg == ConfigOf(Snapshot().badge)
    {
      var size := CLen(name[..], NameSize - 1) - 1;
      cfg := Config(team, id, color, name[..size]);
    }

    /** renderName's scroll step. */
    method RenderName()
      modifies this
      ensures Snapshot() == Act(old(Snapshot()), Action.RenderName).state
    {
      scrollOffset := ToInt16(scrollOffset - ScrollStepPx);
      if scrollOffset < scrollLength {
        scrollOffset := LcdWidth;
      }
    }

    /** renderColor: the colour put on the pixel, then the count and pointer update. */
    method RenderColor() returns (shown: Rgb)
      modifies this
      ensures Act(old(Snapshot()), Action.RenderColor) == Effect(Snapshot(), [shown])
    {
      shown := if flashCount % 2 == 1 then ColorOff
        else if flashTag == BadgeColor then color else ColorEcho;
      if flashCount > 0 {
        flashCount := flashCount - 1;
      }
      if flashCount == 0 {
        flashTag := BadgeColor;
      }
    }

    /** An event's callback; renderRSSI and renderTeam only draw. */
    method Invoke(a: Action) returns (shown: seq<Rgb>)
      modifies this
      ensures Act(old(Snapshot()), a) == Effect(Snapshot(), shown)
    {
      match a
      case RenderName =>
        RenderName();
        shown := [];
      case RenderColor =>
        var c := RenderColor();
        shown := [c];
      case _ =>
        shown := [];
    }

    /** runEvents: every entry whose interval has elapsed gets `prev := now` and its callback, in order. */
    method RunEvents(now: U32) returns (fired: seq<Action>, shown: seq<Rgb>)
      requires events.Length == |Table|
      modifies this, events
      ensures events[..] == Poll(old(events[..]), now)
      ensures fired == Fired(old(events[..]), now)
      ensures Perform(old(Snapshot()), fired) == Effect(Snapshot(), shown)
    {
      ghost var tasks := events[..];
      ghost var st := Snapshot();
      fired := [];
      shown := [];
      var i := 0;
      assert tasks[..0] == [];
      while i < 4
        invariant 0 <= i <= 4 == events.Length
        invariant forall k :: 0 <= k < i ==>
                    events[k] == if Due(tasks[k], now) then tasks[k].(prev := now) else tasks[k]
        invariant forall k :: i <= k < 4 ==> events[k] == tasks[k]
        invariant fired == Fired(tasks[..i], now)
        invariant Perform(st, fired) == Effect(Snapshot(), shown)
      {
        var a := events[i].action;
        FiredSnoc(tasks, now, i);
        PerformSnoc(st, fired, a);
        var due, s := RunEntry(i, now);
        if due {
          fired := fired + [a];
          shown := shown + s;
        }
        i := i + 1;
      }
      assert tasks[..4] == tasks;
      assert events[..] == Poll(tasks, now);
    }

    /** One iteration of runEvents: entry i, if due, gets `prev := now` and its callback runs. */
    method RunEntry(i: nat, now: U32) returns (due: bool, shown: seq<Rgb>)
      requires i < events.Length
      modifies this, events
      ensures due == Due(old(events[i]), now)
      ensures events[..] == old(events[..])[i := if due then old(events[i]).(prev := now) else old(events[i])]
      ensures due ==> Act(old(Snapshot()), old(events[i]).action) == Effect(Snapshot(), shown)
      ensures !due ==> Snapshot() == old(Snapshot()) && shown == []
    {
      var t := events[i];
      due := SubU32(now, t.prev) >= t.interval;
      shown := [];
      if due {
        events[i] := t.(prev := now);
        shown := Invoke(t.action);
      }
    }

    /** handleTeamChange: two bytes, constrained to 1..20 and 1..99, then saved. */
    method HandleTeamChange(p: seq<Byte>) returns (saved: seq<Config>)
      requires Valid()
      modifies this
      ensures Valid()
      ensures TeamChange(old(Snapshot()), p) == Outcome(Snapshot(), [], saved)
    {
      var t := ReadAt(p, 0);
      var i := ReadAt(p, 1);
      team := Constrain(t, 1, TeamMax);
      id := Constrain(i, 1, IdMax);
      var cfg := SaveConfig();
      saved := [cfg];
    }

    /** handleColorChange with the payload cursor at `at`: three bytes, then saved. */
    method HandleColorChange(p: seq<Byte>, at: nat) returns (saved: seq<Config>)
      requires Valid()
      modifies this
      ensures Valid()
      ensures ColorChange(old(Snapshot()), p, at) == Outcome(Snapshot(), [], saved)
    {
      var r := ReadAt(p, at);
      var g := ReadAt(p, at + 1);
      var b := ReadAt(p, at + 2);
      color := Rgb(Constrain(r, 0, 255), Constrain(g, 0, 255), Constrain(b, 0, 255));
      var cfg := SaveConfig();
      saved := [cfg];
    }

    /** handleTeamColorChange: the colour change, only for the addressed team. */
    method HandleTeamColorChange(p: seq<Byte>) returns (saved: seq<Config>)
      requires Valid()
      modifies this
      ensures Valid()
      ensures TeamColorChange(old(Snapshot()), p) == Outcome(Snapshot(), [], saved)
    {
      var t := Constrain(ReadAt(p, 0), 1, TeamMax);
      if t == team {
        saved := HandleColorChange(p, 1);
      } else {
        saved := [];
      }
    }

    /** handleNameChange: the rest of the datagram, at most 254 bytes, becomes the name. */
    method HandleNameChange(p: seq<Byte>) returns (saved: seq<Config>)
      requires Valid()
      modifies this, name
      ensures Valid()
      ensures NameChange(old(Snapshot()), p, measure) == Outcome(Snapshot(), [], saved)
    {
      var length := if |p| < NameLimit then |p| else NameLimit;
      ghost var st := Snapshot();
      UpdateName(p[..length]);
      NameChangeValid(st, p, measure);
      var cfg := SaveConfig();
      saved := [cfg];
    }

    /** handleEcho: teams 1..8 answer [5, team, id] and flash the echo colour twice. */
    method HandleEcho() returns (replies: seq<Reply>)
      requires Valid()
      modifies this
      ensures Valid()
      ensures EchoRequest(old(Snapshot())) == Outcome(Snapshot(), replies, [])
    {
      if team > EchoTeamMax {
        replies := [];
        return;
      }
      replies := [Reply(NetServer, NetPort, [OpEcho, team, id])];
      UpdateColor(EchoColor, EchoPulses);
    }

    /** handleRequests: the opcode selects handler[cmd - 1] for 1..5; other datagrams are dropped. */
    method HandleRequests(dg: seq<Byte>) returns (replies: seq<Reply>, saved: seq<Config>)
      requires Valid()
      modifies this, name
      ensures Valid()
      ensures Dispatch(old(Snapshot()), dg, measure) == Outcome(Snapshot(), replies, saved)
    {
      DispatchOpcode(Snapshot(), dg, measure);
      replies, saved := [], [];
      if |dg| > 0 {
        var cmd := dg[0];
        var p := dg[1..];
        if cmd == OpSetTeamId {
          saved := HandleTeamChange(p);
        } else if cmd == OpSetColor {
          saved := HandleColorChange(p, 0);
        } else if cmd == OpSetColorForTeam {
          saved := HandleTeamColorChange(p);
        } else if cmd == OpSetName {
          saved := HandleNameChange(p);
        } else if cmd == OpEcho {
          replies := HandleEcho();
        }
      }
    }

    /** One pass of loop() outside setup mode: the due events, then one datagram. */
    method Loop(now: U32, dg: seq<Byte>) returns (shown: seq<Rgb>, replies: seq<Reply>, saved: seq<Config>)
      requires Valid()
      modifies this, name, events
      ensures Valid()
      ensures events[..] == Poll(old(events[..]), now)
      ensures var e := Perform(old(Snapshot()), Fired(old(events[..]), now));
        && shown == e.shown
        && NameWellFormed(e.state.badge.name)
        && Dispatch(e.state, dg, measure) == Outcome(Snapshot(), replies, saved)
    {
      ghost var st := Snapshot();
      var fired;
      fired, shown := RunEvents(now);
      PerformValid(st, fired);
      replies, saved := HandleRequests(dg);
    }
  }
}
