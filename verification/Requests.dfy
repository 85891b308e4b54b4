/** Read requests: a service byte and an identifier, and which of them the catalogue calls safe. */
module Requests {
  import opened Words
  import opened Hex

  datatype Request = Request(service: byte, identifier: uint16)

  /** Reads the catalogue allows: UDS 22, and KWP 21 or 1A with a one-byte, nonzero identifier. */
  predicate IsSafe(q: Request) {
    if q.service == 0x22 then true
    else (q.service == 0x21 || q.service == 0x1a) && q.identifier != 0 && q.identifier <= 0xff
  }

  /** The adapter command line of a read. */
  function CommandText(q: Request): string {
    if q.service == 0x22 then "22" + Padded(4, q.identifier)
    else Padded(2, q.service) + Padded(2, q.identifier)
  }

  /** The read that a request message asks for: 22 hh ll, or 21 / 1A with one identifier byte. */
  function WireRead(bytes: seq<byte>): Option<Request> {
    if |bytes| == 3 && bytes[0] == 0x22 then Some(Request(0x22, BigEndian16(bytes[1], bytes[2])))
    else if |bytes| == 2 && (bytes[0] == 0x21 || bytes[0] == 0x1a) then Some(Request(bytes[0], bytes[1]))
    else None
  }

  lemma HighAndLow(high: byte, low: byte, v: uint16)
    ensures BigEndian16(high, low) == v <==> high == v / 0x100 && low == v % 0x100
  {
  }

  /** The messages that ask for a read, byte by byte. */
  lemma WireReadIff(bytes: seq<byte>, q: Request)
    ensures WireRead(bytes) == Some(q) <==>
            || (q.service == 0x22 && bytes == [0x22, q.identifier / 0x100, q.identifier % 0x100])
            || (q.service in {0x21, 0x1a} && q.identifier <= 0xff && bytes == [q.service, q.identifier])
  {
    if |bytes| == 3 {
      HighAndLow(bytes[1], bytes[2], q.identifier);
      assert bytes == [bytes[0], bytes[1], bytes[2]];
    } else if |bytes| == 2 {
      assert bytes == [bytes[0], bytes[1]];
    }
  }

  /** The safe reads are those that some message asks for, without local identifier zero. */
  lemma IsSafeIff(q: Request)
    ensures IsSafe(q) <==> (exists bytes :: WireRead(bytes) == Some(q)) && (q.identifier == 0 ==> q.service == 0x22)
  {
    if q.service == 0x22 {
      WireReadIff([0x22, q.identifier / 0x100, q.identifier % 0x100], q);
    } else if q.identifier <= 0xff {
      WireReadIff([q.service, q.identifier], q);
    }
  }

  /** What a diagnostic server makes of a command line. */
  function ParseCommand(text: string): Option<Request> {
    match Parsed(text)
    case None => None
    case Some(bytes) => WireRead(bytes)
  }

  /** Every safe read is put on the wire as exactly itself. */
  lemma CommandParsesBack(q: Request)
    requires IsSafe(q)
    ensures ParseCommand(CommandText(q)) == Some(q)
  {
    if q.service == 0x22 {
      var bytes: seq<byte> := [0x22, q.identifier / 0x100, q.identifier % 0x100];
      PaddedFour(q.identifier);
      assert Padded2(0x22) == "22";
      PrintedThree(bytes[0], bytes[1], bytes[2]);
      assert CommandText(q) == Printed(bytes);
      PrintParseRoundTrip(bytes);
      assert Parsed(CommandText(q)).value == bytes;
    } else {
      var bytes: seq<byte> := [q.service, q.identifier];
      PaddedIsPadded2(q.service);
      PaddedIsPadded2(q.identifier);
      PrintedTwo(bytes[0], bytes[1]);
      assert CommandText(q) == Printed(bytes);
      PrintParseRoundTrip(bytes);
      assert Parsed(CommandText(q)).value == bytes;
    }
  }

  lemma PrintedTwo(a: byte, b: byte)
    ensures Printed([a, b]) == Padded2(a) + Padded2(b)
  {
    assert [a, b][..1] == [a] && [a][..0] == [];
    assert Printed([a]) == Padded2(a);
  }

  lemma PrintedThree(a: byte, b: byte, c: byte)
    ensures Printed([a, b, c]) == Padded2(a) + (Padded2(b) + Padded2(c))
  {
    assert [a, b, c][..2] == [a, b];
    PrintedTwo(a, b);
  }
}
