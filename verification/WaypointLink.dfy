/** The receive automaton and the waypoint it fills, changed in place byte by byte. */
module WaypointLink {
  import opened FixedWidth
  import opened WaypointUplink

  class Link {
    var parse: Parse
    var highByte: int
    var checksum: Byte
    var injectPos: Byte
    const inject: array<Byte>
    var voltageTemp: Byte
    var voltage: nat

    constructor ()
      ensures Ready() && View() == START && fresh(inject)
    {
      parse, highByte, checksum, injectPos, voltageTemp, voltage := NewMsg, 0, 0, 0, 0, 0;
      inject := new Byte[SIZE](_ => 0);
    }

    ghost predicate Ready()
      reads this
    {
      inject.Length == SIZE
    }

    ghost function View(): (r: Receiver)
      requires Ready()
      reads this, inject
      ensures Valid(r)
    {
      Receiver(parse, highByte, checksum, injectPos, inject[..], voltageTemp, voltage)
    }

    /** `flightplan_waypoints_live_received_byte`. */
    method LiveReceivedByte(b: Byte)
      requires Ready()
      modifies this, inject
      ensures Ready() && View() == LiveByte(old(View()), b)
    {
      if injectPos < SIZE {
        inject[BYTE_ORDER[injectPos]] := b;
        injectPos := injectPos + 1;
      } else if injectPos == SIZE {
        injectPos := injectPos + 1;
      }
    }

    /** `flightplan_waypoints_live_commit`. */
    method LiveCommit()
      requires Ready()
      modifies `injectPos
      ensures View() == WaypointUplink.LiveCommit(old(View()))
    {
      injectPos := if injectPos == SIZE then READY else 0;
    }

    /** `sio_newMsg`. */
    method NewMessage(c: Byte)
      requires Ready() && parse == NewMsg
      modifies this
      ensures Ready() && View() == Receive(old(View()), c)
    {
      if c == VOLTAGE {
        parse := VoltageHigh;
      } else if c == FRAME {
        highByte := -1;
        checksum := 0;
        parse := FpData;
        injectPos := 0;
      }
    }

    /** `sio_fp_data`. */
    method FrameData(c: Byte)
      requires Ready() && parse == FpData
      modifies this, inject
      ensures Ready() && View() == Receive(old(View()), c)
    {
      hide HexVal, LiveByte;
      if c == STAR {
        highByte := -1;
        parse := FpChecksum;
      } else {
        var hexVal := HexVal(c);
        if hexVal == -1 {
          parse := NewMsg;
          return;
        } else if highByte == -1 {
          highByte := SignedChar(hexVal * 16);
        } else {
          LiveReceivedByte(U8(highByte + hexVal));
          LiveByteKeeps(old(View()), U8(old(highByte) + hexVal));
          highByte := -1;
        }
        checksum := U8(checksum + c);
      }
    }

    static lemma LiveByteKeeps(r: Receiver, b: Byte)
      requires Valid(r)
      ensures var s := LiveByte(r, b);
        s.parse == r.parse && s.checksum == r.checksum && s.high == r.high && s.temp == r.temp && s.voltage == r.voltage
    {
    }

    /** `sio_fp_checksum`. */
    method FrameChecksum(c: Byte)
      requires Ready() && parse == FpChecksum
      modifies this
      ensures Ready() && View() == Receive(old(View()), c)
    {
      hide HexVal;
      var hexVal := HexVal(c);
      if hexVal == -1 {
        parse := NewMsg;
      } else if highByte == -1 {
        highByte := SignedChar(hexVal * 16);
      } else {
        var v := U8(highByte + hexVal);
        if v == checksum { LiveCommit(); }
        parse := NewMsg;
      }
    }

    /** `udb_serial_callback_received_byte`. */
    method ReceivedByte(c: Byte)
      requires Ready()
      modifies this, inject
      ensures Ready() && View() == Receive(old(View()), c)
    {
      match parse {
        case NewMsg => NewMessage(c);
        case VoltageHigh =>
          voltageTemp := c;
          parse := VoltageLow;
        case VoltageLow =>
          voltage := U16(2 * (256 * voltageTemp + c));
          parse := NewMsg;
        case FpData => FrameData(c);
        case FpChecksum => FrameChecksum(c);
      }
    }

    /** The start of `flightplan_waypoints_update`: is there a waypoint to fly to? */
    method TakeInjected() returns (taken: bool, waypoint: seq<Byte>)
      requires Ready()
      modifies `injectPos
      ensures View() == Update(old(View())) && taken == (old(injectPos) == READY)
      ensures taken ==> waypoint == inject[..]
    {
      taken, waypoint := injectPos == READY, [];
      if taken {
        waypoint := inject[..];
        injectPos := 0;
      }
    }

    /** A stream of bytes arrives. */
    method ReceiveAll(bytes: seq<Byte>)
      requires Ready()
      modifies this, inject
      ensures Ready() && View() == Run(old(View()), Arrivals(bytes))
    {
      hide Receive;
      var i := 0;
      while i < |bytes|
        invariant i <= |bytes| && Ready() && View() == Run(old(View()), Arrivals(bytes[..i]))
      {
        ReceivedByte(bytes[i]);
        i := i + 1;
        assert Arrivals(bytes[..i]) == Arrivals(bytes[..i - 1]) + [Arrives(bytes[i - 1])];
        var front := Arrivals(bytes[..i]);
        assert front[..|front| - 1] == Arrivals(bytes[..i - 1]);
      }
      assert bytes[..|bytes|] == bytes;
    }
  }

  function Arrivals(bytes: seq<Byte>): (events: seq<Event>)
    ensures |events| == |bytes|
  {
    seq(|bytes|, i requires 0 <= i < |bytes| => Arrives(bytes[i]))
  }
}
