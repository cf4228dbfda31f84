// The 5250 Telnet session: RFC 1205 records over the Telnet stream, and the
// option negotiation that opens it.
module Telnet {
  import opened Bytes

  const IAC: byte := 255
  const DONT: byte := 254
  const DO: byte := 253
  const WONT: byte := 252
  const WILL: byte := 251
  const SB: byte := 250
  const SE: byte := 240
  const EOR: byte := 239

  const BINARY: byte := 0
  const TERMINAL_TYPE: byte := 24
  const END_OF_RECORD: byte := 25
  const NEW_ENVIRON: byte := 39

  const HEADER: nat := 10

  // A 5250 record as it is handed up: opcode, first flag octet, data stream.
  datatype Record = Record(opcode: byte, flags: byte, data: seq<byte>)

  datatype ReadState = Data | HaveIac | HaveVerb | InSub | SubIac

  // Who said what: the options the peer has agreed to perform and to let us
  // perform, and the requests this side has outstanding or agreed.
  datatype Options = Options(peerWill: set<byte>, peerDo: set<byte>, weSentDo: set<byte>, weSentWill: set<byte>)

  // `delivered`, `written`, `readyCalls` and `mismatches` are what has left
  // the session: records up, octets out, and callbacks.
  datatype Session = Session(
    state: ReadState, record: seq<byte>, sub: seq<byte>, verb: byte,
    options: Options, terminalType: seq<byte>, signalled: bool,
    delivered: seq<Record>, written: seq<byte>, readyCalls: nat, mismatches: seq<seq<byte>>)

  // Can this endpoint serve a client of this terminal type?
  type Serves = seq<byte> -> bool

  // ---- sending ------------------------------------------------------------------

  // Section 3 of RFC 1205: six fixed octets and four variable ones, the
  // length counted before any doubling.
  function Header(opcode: byte, flags: byte, length: nat): (h: seq<byte>)
    ensures |h| == HEADER
  {
    [(HEADER + length) / 0x100 % 0x100, (HEADER + length) % 0x100, 0x12, 0xA0, 0x00, 0x00, 0x04, flags, 0x00, opcode]
  }

  function Frame(r: Record): seq<byte> {
    Header(r.opcode, r.flags, |r.data|) + r.data
  }

  // RFC 854: a data octet of 255 is sent twice.
  function EscapeOctet(b: byte): seq<byte> {
    if b == IAC then [b, IAC] else [b]
  }

  function Escape(data: seq<byte>): seq<byte> {
    if data == [] then [] else EscapeOctet(data[0]) + Escape(data[1..])
  }

  // RFC 885: IAC EOR closes a logical record.
  function Wire(r: Record): seq<byte> {
    Escape(Frame(r)) + [IAC, EOR]
  }

  // ---- negotiation -----------------------------------------------------------------

  predicate Acceptable(option: byte) {
    option == BINARY || option == END_OF_RECORD || option == TERMINAL_TYPE || option == NEW_ENVIRON
  }

  predicate Offered(option: byte) {
    option == BINARY || option == END_OF_RECORD
  }

  datatype Answered = Answered(options: Options, answer: Option<byte>)

  function Negotiate(o: Options, verb: byte, option: byte): Answered {
    if verb == WILL then
      if option in o.peerWill then Answered(o, None)
      else if !Acceptable(option) then Answered(o, Some(DONT))
      else
        Answered(o.(peerWill := o.peerWill + {option}, weSentDo := o.weSentDo + {option}),
                 if option in o.weSentDo then None else Some(DO))
    else if verb == WONT then
      if option !in o.peerWill then Answered(o, None)
      else Answered(o.(peerWill := o.peerWill - {option}, weSentDo := o.weSentDo - {option}), Some(DONT))
    else if verb == DO then
      if option in o.peerDo then Answered(o, None)
      else if !Offered(option) then Answered(o, Some(WONT))
      else
        Answered(o.(peerDo := o.peerDo + {option}, weSentWill := o.weSentWill + {option}),
                 if option in o.weSentWill then None else Some(WILL))
    else if verb == DONT then
      if option !in o.peerDo then Answered(o, None)
      else Answered(o.(peerDo := o.peerDo - {option}, weSentWill := o.weSentWill - {option}), Some(WONT))
    else Answered(o, None)
  }

  predicate Ready(s: Session) {
    && s.terminalType != []
    && END_OF_RECORD in s.options.peerWill && END_OF_RECORD in s.options.peerDo
    && BINARY in s.options.peerWill && BINARY in s.options.peerDo
  }

  function SignalReady(s: Session): Session {
    if s.signalled || !Ready(s) then s else s.(signalled := true, readyCalls := s.readyCalls + 1)
  }

  function Put(s: Session, octets: seq<byte>): Session {
    s.(written := s.written + octets)
  }

  function Ask(verb: byte, option: byte): seq<byte> {
    if verb == WILL && option == TERMINAL_TYPE then [IAC, SB, TERMINAL_TYPE, 1, IAC, SE]
    else if verb == WILL && option == NEW_ENVIRON then [IAC, SB, NEW_ENVIRON, 1, 0, 3, IAC, SE]
    else []
  }

  function HandleVerb(s: Session, verb: byte, option: byte): Session {
    var a := Negotiate(s.options, verb, option);
    var answer := match a.answer case None => [] case Some(v) => [IAC, v, option];
    SignalReady(Put(Put(s.(options := a.options), answer), Ask(verb, option)))
  }

  function OfferDo(s: Session, option: byte): Session {
    if option in s.options.weSentDo then s
    else Put(s.(options := s.options.(weSentDo := s.options.weSentDo + {option})), [IAC, DO, option])
  }

  function OfferWill(s: Session, option: byte): Session {
    if option in s.options.weSentWill then s
    else Put(s.(options := s.options.(weSentWill := s.options.weSentWill + {option})), [IAC, WILL, option])
  }

  // The terminal type has arrived: refuse the other family, else open both
  // directions of END-OF-RECORD and BINARY.
  function HandleSub(s: Session, sb: seq<byte>, serves: Serves): Session {
    if |sb| < 2 || sb[0] != TERMINAL_TYPE || sb[1] != 0 then s
    else
      var typed := s.(terminalType := sb[2..]);
      if !serves(sb[2..]) then typed.(mismatches := typed.mismatches + [sb[2..]])
      else
        SignalReady(OfferWill(OfferDo(OfferWill(OfferDo(typed, END_OF_RECORD), END_OF_RECORD), BINARY), BINARY))
  }

  // ---- receiving -------------------------------------------------------------------

  function Deliver(s: Session): Session {
    if |s.record| < HEADER then s.(record := [])
    else s.(delivered := s.delivered + [Record(s.record[9], s.record[7], s.record[HEADER..])], record := [])
  }

  function Receive(s: Session, c: byte, serves: Serves): Session {
    match s.state
    case Data => if c == IAC then s.(state := HaveIac) else s.(record := s.record + [c])
    case HaveIac =>
      if c == IAC then s.(record := s.record + [c], state := Data)
      else if c == WILL || c == WONT || c == DO || c == DONT then s.(verb := c, state := HaveVerb)
      else if c == SB then s.(sub := [], state := InSub)
      else if c == EOR then Deliver(s).(state := Data)
      else s.(state := Data)
    case HaveVerb => HandleVerb(s, s.verb, c).(state := Data)
    case InSub => if c == IAC then s.(state := SubIac) else s.(sub := s.sub + [c])
    case SubIac =>
      if c == IAC then s.(sub := s.sub + [c], state := InSub)
      else if c == SE then HandleSub(s, s.sub, serves).(sub := [], state := Data)
      else s.(state := InSub)
  }

  function Feed(s: Session, bytes: seq<byte>, serves: Serves): Session
    decreases |bytes|
  {
    if bytes == [] then s else Feed(Receive(s, bytes[0], serves), bytes[1..], serves)
  }

  // How the socket cuts the stream makes no difference.
  lemma {:induction false} FeedAppend(s: Session, a: seq<byte>, b: seq<byte>, serves: Serves)
    ensures Feed(s, a + b, serves) == Feed(Feed(s, a, serves), b, serves)
    decreases |a|
  {
    if a == [] {
      assert a + b == b;
    } else {
      assert (a + b)[1..] == a[1..] + b;
      FeedAppend(Receive(s, a[0], serves), a[1..], b, serves);
    }
  }

  // ---- framing round trip -------------------------------------------------------------

  // A stream as a sender may produce it: data octets, record ends, and
  // complete Telnet commands anywhere between them.
  datatype Piece =
    | Octet(b: byte)
    | EndRecord
    | Verb(verb: byte, option: byte)
    | Command(command: byte)
    | Sub(body: seq<byte>)
  {
    // A verb is one of the four; a plain command is none of those the
    // receiver gives a meaning to.
    predicate Sound() {
      match this
      case Verb(v, _) => v == WILL || v == WONT || v == DO || v == DONT
      case Command(c) => c != IAC && c != WILL && c != WONT && c != DO && c != DONT && c != SB && c != EOR
      case _ => true
    }

    predicate Noise() {
      Verb? || Command? || Sub?
    }

    function Encode(): (r: seq<byte>)
      ensures r != []
    {
      match this
      case Octet(b) => EscapeOctet(b)
      case EndRecord => [IAC, EOR]
      case Verb(v, option) => [IAC, v, option]
      case Command(c) => [IAC, c]
      case Sub(body) => [IAC, SB] + Escape(body) + [IAC, SE]
    }
  }

  function Stream(pieces: seq<Piece>): seq<byte> {
    if pieces == [] then [] else pieces[0].Encode() + Stream(pieces[1..])
  }

  function Quiet(pieces: seq<Piece>): seq<Piece> {
    if pieces == [] then []
    else (if pieces[0].Noise() then [] else [pieces[0]]) + Quiet(pieces[1..])
  }

  function Octets(data: seq<byte>): (r: seq<Piece>)
    ensures |r| == |data| && forall i | 0 <= i < |data| :: r[i] == Octet(data[i])
  {
    seq(|data|, i requires 0 <= i < |data| => Octet(data[i]))
  }

  // The pieces of records sent one after another, with nothing between.
  function Records(records: seq<Record>): seq<Piece> {
    if records == [] then [] else Octets(Frame(records[0])) + [EndRecord] + Records(records[1..])
  }

  // What the pieces say, read without any escapes.
  datatype Inbox = Inbox(record: seq<byte>, delivered: seq<Record>)

  function Read(i: Inbox, p: Piece): Inbox {
    match p
    case Octet(b) => i.(record := i.record + [b])
    case EndRecord =>
      if |i.record| < HEADER then Inbox([], i.delivered)
      else Inbox([], i.delivered + [Record(i.record[9], i.record[7], i.record[HEADER..])])
    case _ => i
  }

  function ReadAll(i: Inbox, pieces: seq<Piece>): Inbox
    decreases |pieces|
  {
    if pieces == [] then i else ReadAll(Read(i, pieces[0]), pieces[1..])
  }

  function In(s: Session): Inbox {
    Inbox(s.record, s.delivered)
  }

  // Inside a sub-negotiation, escaped octets come back one for one.
  lemma {:induction false} SubReads(s: Session, body: seq<byte>, serves: Serves)
    requires s.state == InSub
    ensures Feed(s, Escape(body), serves) == s.(sub := s.sub + body)
    decreases |body|
  {
    if body == [] {
      assert s.sub + body == s.sub;
    } else {
      FeedAppend(s, EscapeOctet(body[0]), Escape(body[1..]), serves);
      var t := s.(sub := s.sub + [body[0]]);
      assert Feed(s, EscapeOctet(body[0]), serves) == t by {
        FeedTwo(s, EscapeOctet(body[0]), serves);
      }
      SubReads(t, body[1..], serves);
      assert s.sub + [body[0]] + body[1..] == s.sub + body;
    }
  }

  lemma FeedTwo(s: Session, bytes: seq<byte>, serves: Serves)
    ensures |bytes| == 1 ==> Feed(s, bytes, serves) == Receive(s, bytes[0], serves)
    ensures |bytes| == 2 ==> Feed(s, bytes, serves) == Receive(Receive(s, bytes[0], serves), bytes[1], serves)
    ensures |bytes| == 3 ==>
              Feed(s, bytes, serves) == Receive(Receive(Receive(s, bytes[0], serves), bytes[1], serves), bytes[2],
                                                serves)
  {
    hide Receive;
    if bytes != [] {
      var one := Receive(s, bytes[0], serves);
      FeedStep(s, bytes, serves);
      if |bytes| >= 2 {
        var two := Receive(one, bytes[1], serves);
        FeedStep(one, bytes[1..], serves);
        assert bytes[1..][1..] == bytes[2..];
        if |bytes| == 3 {
          FeedStep(two, bytes[2..], serves);
          assert bytes[2..][1..] == [];
        }
      }
    }
  }

  lemma FeedStep(s: Session, bytes: seq<byte>, serves: Serves)
    requires bytes != []
    ensures Feed(s, bytes, serves) == Feed(Receive(s, bytes[0], serves), bytes[1..], serves)
    ensures bytes[1..] == [] ==> Feed(s, bytes, serves) == Receive(s, bytes[0], serves)
  {
  }

  // A sub-negotiation is handled with exactly the octets it was sent with.
  lemma SubArrives(s: Session, body: seq<byte>, serves: Serves)
    requires s.state == Data
    ensures var t := s.(state := SubIac, sub := body);
            Feed(s, Sub(body).Encode(), serves) == HandleSub(t, body, serves).(sub := [], state := Data)
  {
    hide HandleSub, HandleVerb, Deliver, Escape;
    var opened_ := s.(state := InSub, sub := []);
    FeedAppend(s, [IAC, SB] + Escape(body), [IAC, SE], serves);
    FeedAppend(s, [IAC, SB], Escape(body), serves);
    FeedTwo(s, [IAC, SB], serves);
    SubReads(opened_, body, serves);
    assert [] + body == body;
    FeedTwo(opened_.(sub := body), [IAC, SE], serves);
  }

  lemma HandlersKeepRecords(s: Session, verb: byte, option: byte, sb: seq<byte>, serves: Serves)
    ensures In(HandleVerb(s, verb, option)) == In(s) && In(HandleSub(s, sb, serves)) == In(s)
  {
  }

  // One piece on the wire does what it says, and nothing to the rest.
  lemma PieceReads(s: Session, p: Piece, serves: Serves)
    requires s.state == Data && p.Sound()
    ensures var t := Feed(s, p.Encode(), serves); t.state == Data && In(t) == Read(In(s), p)
  {
    hide HandleVerb, HandleSub;
    FeedTwo(s, p.Encode(), serves);
    match p {
      case Octet(b) =>
      case EndRecord =>
      case Verb(v, option) => HandlersKeepRecords(s.(verb := v, state := HaveVerb), v, option, [], serves);
      case Command(c) =>
      case Sub(body) =>
        SubArrives(s, body, serves);
        HandlersKeepRecords(s.(state := SubIac, sub := body), 0, 0, body, serves);
    }
  }

  lemma {:induction false} StreamReads(s: Session, pieces: seq<Piece>, serves: Serves)
    requires s.state == Data && forall i | 0 <= i < |pieces| :: pieces[i].Sound()
    ensures var t := Feed(s, Stream(pieces), serves); t.state == Data && In(t) == ReadAll(In(s), pieces)
    decreases |pieces|
  {
    if pieces != [] {
      var t := Feed(s, pieces[0].Encode(), serves);
      PieceReads(s, pieces[0], serves);
      FeedAppend(s, pieces[0].Encode(), Stream(pieces[1..]), serves);
      StreamReads(t, pieces[1..], serves);
    }
  }

  lemma {:induction false} NoiseReadsNothing(i: Inbox, pieces: seq<Piece>)
    ensures ReadAll(i, pieces) == ReadAll(i, Quiet(pieces))
    decreases |pieces|
  {
    if pieces != [] {
      NoiseReadsNothing(Read(i, pieces[0]), pieces[1..]);
      if !pieces[0].Noise() {
        assert Quiet(pieces)[1..] == Quiet(pieces[1..]);
      } else {
        assert Quiet(pieces) == Quiet(pieces[1..]);
      }
    }
  }

  lemma {:induction false} ReadAllAppend(i: Inbox, a: seq<Piece>, b: seq<Piece>)
    ensures ReadAll(i, a + b) == ReadAll(ReadAll(i, a), b)
    decreases |a|
  {
    if a == [] {
      assert a + b == b;
    } else {
      assert (a + b)[1..] == a[1..] + b;
      ReadAllAppend(Read(i, a[0]), a[1..], b);
    }
  }

  lemma {:induction false} OctetsRead(i: Inbox, data: seq<byte>)
    ensures ReadAll(i, Octets(data)) == i.(record := i.record + data)
    decreases |data|
  {
    if data == [] {
      assert i.record + data == i.record;
    } else {
      assert Octets(data)[1..] == Octets(data[1..]);
      OctetsRead(i.(record := i.record + [data[0]]), data[1..]);
      assert i.record + [data[0]] + data[1..] == i.record + data;
    }
  }

  lemma {:induction false} RecordsRead(delivered: seq<Record>, records: seq<Record>)
    ensures ReadAll(Inbox([], delivered), Records(records)) == Inbox([], delivered + records)
    decreases |records|
  {
    if records == [] {
      assert delivered + records == delivered;
    } else {
      var r, frame := records[0], Frame(records[0]);
      var start := Inbox([], delivered);
      ReadAllAppend(start, Octets(frame) + [EndRecord], Records(records[1..]));
      ReadAllAppend(start, Octets(frame), [EndRecord]);
      OctetsRead(start, frame);
      assert [] + frame == frame && frame[HEADER..] == r.data && frame[9] == r.opcode && frame[7] == r.flags;
      EndReads(Inbox(frame, delivered));
      assert ReadAll(start, Octets(frame) + [EndRecord]) == Inbox([], delivered + [r]);
      RecordsRead(delivered + [r], records[1..]);
      assert delivered + [r] + records[1..] == delivered + records;
    }
  }

  lemma EndReads(i: Inbox)
    ensures ReadAll(i, [EndRecord]) == Read(i, EndRecord)
  {
    assert [EndRecord][1..] == [];
  }

  // Records sent one after another, with any complete Telnet commands between
  // any of their octets, arrive exactly as sent, in order; the machine is
  // back in its data state with nothing half-read.
  lemma FramingRoundTrip(s: Session, records: seq<Record>, pieces: seq<Piece>, serves: Serves)
    requires s.state == Data && s.record == []
    requires forall i | 0 <= i < |pieces| :: pieces[i].Sound()
    requires Quiet(pieces) == Records(records)
    ensures var t := Feed(s, Stream(pieces), serves);
            t.state == Data && t.record == [] && t.delivered == s.delivered + records
  {
    StreamReads(s, pieces, serves);
    NoiseReadsNothing(In(s), pieces);
    RecordsRead(s.delivered, records);
  }

  lemma {:induction false} OctetsAreEscape(data: seq<byte>)
    ensures Stream(Octets(data)) == Escape(data)
  {
    if data != [] {
      assert Octets(data)[1..] == Octets(data[1..]);
      OctetsAreEscape(data[1..]);
    }
  }

  lemma {:induction false} StreamAppend(a: seq<Piece>, b: seq<Piece>)
    ensures Stream(a + b) == Stream(a) + Stream(b)
  {
    if a == [] {
      assert a + b == b;
    } else {
      assert (a + b)[1..] == a[1..] + b;
      StreamAppend(a[1..], b);
    }
  }

  // The pieces of one record are the octets its sender puts on the wire.
  lemma WireIsPieces(r: Record)
    ensures Stream(Records([r])) == Wire(r)
  {
    assert [r][1..] == [] && Records([]) == [];
    var octets := Octets(Frame(r));
    assert Records([r]) == octets + [EndRecord];
    StreamAppend(octets, [EndRecord]);
    OctetsAreEscape(Frame(r));
    assert [EndRecord][1..] == [] && Stream([]) == [];
    assert Stream([EndRecord]) == [IAC, EOR];
  }

  // ---- negotiation, over every history ----------------------------------------------------

  // Everything the peer performs we asked for, and everything it lets us
  // perform we offered; both stay inside what section 2 of RFC 1205 and
  // section 3 of RFC 2877 need.
  ghost predicate Agreed(s: Session) {
    && s.options.peerWill <= s.options.weSentDo && s.options.peerDo <= s.options.weSentWill
    && (forall o | o in s.options.peerWill :: Acceptable(o))
    && (forall o | o in s.options.peerDo :: Offered(o))
    && s.readyCalls == (if s.signalled then 1 else 0)
  }

  const START: Session :=
    Session(Data, [], [], 0, Options({}, {}, {NEW_ENVIRON, TERMINAL_TYPE}, {}), [], false, [],
            [IAC, DO, NEW_ENVIRON, IAC, DO, TERMINAL_TYPE], 0, [])

  lemma ReceiveAgrees(s: Session, c: byte, serves: Serves)
    requires Agreed(s)
    ensures Agreed(Receive(s, c, serves))
    ensures Receive(s, c, serves).readyCalls >= s.readyCalls
  {
    hide HandleVerb, HandleSub;
    VerbAgrees(s, s.verb, c);
    SubAgrees(s, s.sub, serves);
  }

  lemma VerbAgrees(s: Session, verb: byte, option: byte)
    requires Agreed(s)
    ensures Agreed(HandleVerb(s, verb, option)) && HandleVerb(s, verb, option).readyCalls >= s.readyCalls
  {
    hide Ask;
  }

  lemma SubAgrees(s: Session, sb: seq<byte>, serves: Serves)
    requires Agreed(s)
    ensures Agreed(HandleSub(s, sb, serves)) && HandleSub(s, sb, serves).readyCalls >= s.readyCalls
  {
  }

  lemma {:induction false} FeedAgrees(s: Session, bytes: seq<byte>, serves: Serves)
    requires Agreed(s)
    ensures Agreed(Feed(s, bytes, serves))
    decreases |bytes|
  {
    if bytes != [] {
      ReceiveAgrees(s, bytes[0], serves);
      FeedAgrees(Receive(s, bytes[0], serves), bytes[1..], serves);
    }
  }

  // After any octets at all: being ready means both directions of BINARY and
  // END-OF-RECORD were requested by this side and agreed by the peer, and the
  // ready callback has run at most once.
  lemma NegotiationHolds(bytes: seq<byte>, serves: Serves)
    ensures var s := Feed(START, bytes, serves);
            && Agreed(s) && s.readyCalls <= 1
            && (Ready(s) ==> {BINARY, END_OF_RECORD} <= s.options.peerWill * s.options.weSentDo)
            && (Ready(s) ==> {BINARY, END_OF_RECORD} <= s.options.peerDo * s.options.weSentWill)
            && (s.options.peerWill <= {BINARY, TERMINAL_TYPE, END_OF_RECORD, NEW_ENVIRON})
            && (s.options.peerDo <= {BINARY, END_OF_RECORD})
  {
    FeedAgrees(START, bytes, serves);
  }

  predicate Refused(verb: byte, option: byte) {
    (verb == WILL && !Acceptable(option)) || (verb == DO && !Offered(option))
  }

  // The option already stands as the verb says.
  predicate AlreadySo(o: Options, verb: byte, option: byte) {
    if verb == WILL then option in o.peerWill
    else if verb == WONT then option !in o.peerWill
    else if verb == DO then option in o.peerDo
    else if verb == DONT then option !in o.peerDo
    else true
  }

  // A verb changes no option state exactly when this side refuses what it asks
  // or the option already stands so.  It is then answered exactly when it is
  // refused, with the opposite verb, or when it is a WILL for an option whose
  // value this side asks for, with that sub-negotiation again.
  lemma UnchangedIsAnsweredIff(s: Session, verb: byte, option: byte)
    requires Agreed(s)
    ensures var t := HandleVerb(s, verb, option);
            && (t.options == s.options <==> Refused(verb, option) || AlreadySo(s.options, verb, option))
            && (t.options == s.options ==>
                  && t.written == s.written + (if Refused(verb, option)
                                               then [IAC, if verb == WILL then DONT else WONT, option]
                                               else Ask(verb, option))
                  && (|t.written| > |s.written|
                      <==> Refused(verb, option) || (verb == WILL && option in {TERMINAL_TYPE, NEW_ENVIRON})))
  {
    NegotiateUnchanged(s.options, verb, option);
    var a := Negotiate(s.options, verb, option);
    if a.options == s.options {
      var answer := match a.answer case None => [] case Some(v) => [IAC, v, option];
      assert s.written + [] == s.written && s.written + answer + [] == s.written + answer;
    }
  }

  lemma NegotiateUnchanged(o: Options, verb: byte, option: byte)
    requires o.peerWill <= o.weSentDo && o.peerDo <= o.weSentWill
    requires (forall x | x in o.peerWill :: Acceptable(x)) && (forall x | x in o.peerDo :: Offered(x))
    ensures var r := Negotiate(o, verb, option);
            && (r.options == o <==> Refused(verb, option) || AlreadySo(o, verb, option))
            && (r.options == o ==>
                  r.answer == if Refused(verb, option) then Some(if verb == WILL then DONT else WONT) else None)
  {
    var r := Negotiate(o, verb, option);
    assert verb == WONT && option in o.peerWill ==> option !in r.options.peerWill;
    assert verb == DONT && option in o.peerDo ==> option !in r.options.peerDo;
    assert verb == WILL && Acceptable(option) ==> option in r.options.peerWill;
    assert verb == DO && Offered(option) ==> option in r.options.peerDo;
  }

  // ECHO is the first refused option: its WILL changes nothing and is answered.
  lemma EchoIsRefusedEachTime(s: Session)
    requires Agreed(s)
    ensures var t := HandleVerb(s, WILL, 1);
            t.options == s.options && t.written == s.written + [IAC, DONT, 1]
  {
    UnchangedIsAnsweredIff(s, WILL, 1);
  }

  // A terminal type offered twice is asked for twice: the second WILL changes
  // nothing and still draws the request for the type.
  lemma TypeIsAskedEachTime(serves: Serves)
    ensures var s, t := Feed(START, [IAC, WILL, TERMINAL_TYPE], serves),
                        Feed(START, [IAC, WILL, TERMINAL_TYPE, IAC, WILL, TERMINAL_TYPE], serves);
            TERMINAL_TYPE in s.options.peerWill && t.options == s.options
            && t.written == s.written + [IAC, SB, TERMINAL_TYPE, 1, IAC, SE]
  {
    var once: seq<byte> := [IAC, WILL, TERMINAL_TYPE];
    assert [IAC, WILL, TERMINAL_TYPE, IAC, WILL, TERMINAL_TYPE] == once + once;
    FeedAppend(START, once, once, serves);
    VerbArrives(START, WILL, TERMINAL_TYPE, serves);
    var s := Feed(START, once, serves);
    VerbArrives(s, WILL, TERMINAL_TYPE, serves);
    FeedAgrees(START, once, serves);
    UnchangedIsAnsweredIff(s, WILL, TERMINAL_TYPE);
  }

  lemma VerbArrives(s: Session, verb: byte, option: byte, serves: Serves)
    requires s.state == Data && (verb == WILL || verb == WONT || verb == DO || verb == DONT)
    ensures Feed(s, [IAC, verb, option], serves) == HandleVerb(s.(verb := verb), verb, option).(state := Data)
  {
    hide HandleVerb, HandleSub;
    var bytes := [IAC, verb, option];
    assert bytes[1..] == [verb, option] && [verb, option][1..] == [option] && [option][1..] == [];
    var waiting := Receive(s, IAC, serves);
    assert Feed(s, bytes, serves) == Feed(waiting, [verb, option], serves);
    assert Feed(waiting, [verb, option], serves) == Feed(Receive(waiting, verb, serves), [option], serves);
    var after := Receive(Receive(s, IAC, serves), verb, serves);
    assert after == s.(verb := verb, state := HaveVerb);
    assert Receive(after, option, serves) == HandleVerb(after, verb, option).(state := Data);
    assert Feed(after, [option], serves) == Feed(Receive(after, option, serves), [], serves);
    StateKept(s, verb, option);
  }

  // The verb is handled alike whatever the reader's state.
  lemma StateKept(s: Session, verb: byte, option: byte)
    ensures HandleVerb(s.(verb := verb, state := HaveVerb), verb, option).(state := Data)
         == HandleVerb(s.(verb := verb), verb, option).(state := Data)
  {
  }

  // A verb that is not refused, heard twice in a row, draws no second verb and
  // changes nothing more: only the request for a value goes out again.
  lemma RepeatDrawsAskOnly(s: Session, verb: byte, option: byte)
    requires !Refused(verb, option)
    ensures var first := HandleVerb(s, verb, option);
            HandleVerb(first, verb, option) == Put(first, Ask(verb, option))
  {
    var first := HandleVerb(s, verb, option);
    assert Negotiate(first.options, verb, option) == Answered(first.options, None);
    assert first.written + [] == first.written;
  }

  // ---- in place ---------------------------------------------------------------------------

  class Telnet5250Session {
    const serves: Serves
    var state: ReadState
    var record: seq<byte>
    var subnegotiation: seq<byte>
    var verb: byte
    var peerWill: set<byte>
    var peerDo: set<byte>
    var weSentDo: set<byte>
    var weSentWill: set<byte>
    var terminalType: seq<byte>
    var readySignalled: bool
    var delivered: seq<Record>
    var written: seq<byte>
    var readyCalls: nat
    var mismatches: seq<seq<byte>>

    ghost function View(): Session
      reads this
    {
      Session(state, record, subnegotiation, verb, Options(peerWill, peerDo, weSentDo, weSentWill), terminalType,
              readySignalled, delivered, written, readyCalls, mismatches)
    }

    // Start: both invitations go out in one write.
    constructor (serves: Serves)
      ensures View() == START && this.serves == serves
    {
      this.serves := serves;
      state, record, subnegotiation, verb := Data, [], [], 0;
      peerWill, peerDo, weSentDo, weSentWill := {}, {}, {NEW_ENVIRON, TERMINAL_TYPE}, {};
      terminalType, readySignalled, delivered := [], false, [];
      written := [IAC, DO, NEW_ENVIRON, IAC, DO, TERMINAL_TYPE];
      readyCalls, mismatches := 0, [];
    }

    method AppendEscaped(into: seq<byte>, src: seq<byte>) returns (wire: seq<byte>)
      ensures wire == into + Escape(src)
    {
      wire := into;
      for i := 0 to |src|
        invariant wire + Escape(src[i..]) == into + Escape(src)
      {
        assert src[i..][1..] == src[i + 1..];
        wire := wire + [src[i]];
        if src[i] == IAC {
          wire := wire + [IAC];
        }
      }
    }

    method Send(r: Record)
      modifies this`written
      ensures View() == Put(old(View()), Wire(r))
    {
      var head := Header(r.opcode, r.flags, |r.data|);
      var wire := AppendEscaped([], head + r.data);
      written := written + (wire + [IAC, EOR]);
    }

    method SignalReadyOnce()
      modifies this`readySignalled, this`readyCalls
      ensures View() == SignalReady(old(View()))
    {
      if readySignalled || terminalType == []
         || !({END_OF_RECORD, BINARY} <= peerWill && {END_OF_RECORD, BINARY} <= peerDo) {
        return;
      }
      readySignalled, readyCalls := true, readyCalls + 1;
    }

    method DecideAnswer(v: byte, option: byte) returns (answer: Option<byte>)
      modifies this`peerWill, this`peerDo, this`weSentDo, this`weSentWill
      ensures Answered(View().options, answer) == Negotiate(old(View()).options, v, option)
      ensures View() == old(View()).(options := View().options)
    {
      answer := None;
      if v == WILL {
        if option !in peerWill {
          peerWill := peerWill + {option};
          if Acceptable(option) {
            if option !in weSentDo {
              answer := Some(DO);
            }
            weSentDo := weSentDo + {option};
          } else {
            peerWill := peerWill - {option};
            answer := Some(DONT);
          }
        }
      } else if v == WONT {
        if option in peerWill {
          peerWill, weSentDo := peerWill - {option}, weSentDo - {option};
          answer := Some(DONT);
        }
      } else if v == DO {
        if option !in peerDo {
          peerDo := peerDo + {option};
          if option == BINARY || option == END_OF_RECORD {
            if option !in weSentWill {
              answer := Some(WILL);
            }
            weSentWill := weSentWill + {option};
          } else {
            peerDo := peerDo - {option};
            answer := Some(WONT);
          }
        }
      } else if v == DONT {
        if option in peerDo {
          peerDo, weSentWill := peerDo - {option}, weSentWill - {option};
          answer := Some(WONT);
        }
      }
    }

    method OnVerb(v: byte, option: byte)
      modifies this
      ensures View() == HandleVerb(old(View()), v, option)
    {
      hide Negotiate;
      var answer := DecideAnswer(v, option);
      if answer.Some? {
        written := written + [IAC, answer.value, option];
      }
      if v == WILL && option == TERMINAL_TYPE {
        written := written + [IAC, SB, TERMINAL_TYPE, 1, IAC, SE];
      }
      if v == WILL && option == NEW_ENVIRON {
        written := written + [IAC, SB, NEW_ENVIRON, 1, 0, 3, IAC, SE];
      }
      SignalReadyOnce();
    }

    method RequestDo(option: byte)
      modifies this`weSentDo, this`written
      ensures View() == OfferDo(old(View()), option)
    {
      if option !in weSentDo {
        weSentDo, written := weSentDo + {option}, written + [IAC, DO, option];
      }
    }

    method RequestWill(option: byte)
      modifies this`weSentWill, this`written
      ensures View() == OfferWill(old(View()), option)
    {
      if option !in weSentWill {
        weSentWill, written := weSentWill + {option}, written + [IAC, WILL, option];
      }
    }

    method OnSubnegotiation(sb: seq<byte>)
      modifies this
      ensures View() == HandleSub(old(View()), sb, serves)
    {
      hide OfferDo, OfferWill, SignalReady;
      if |sb| < 2 || sb[0] != TERMINAL_TYPE || sb[1] != 0 {
        return;
      }
      terminalType := sb[2..];
      if !serves(terminalType) {
        mismatches := mismatches + [terminalType];
        return;
      }
      RequestDo(END_OF_RECORD);
      RequestWill(END_OF_RECORD);
      RequestDo(BINARY);
      RequestWill(BINARY);
      SignalReadyOnce();
    }

    method OnRecord()
      modifies this`delivered, this`record
      ensures View() == Deliver(old(View()))
    {
      if |record| >= HEADER {
        delivered := delivered + [Record(record[9], record[7], record[HEADER..])];
      }
      record := [];
    }

    method OnOctet(c: byte)
      modifies this
      ensures View() == Receive(old(View()), c, serves)
    {
      hide HandleVerb, HandleSub, Deliver;
      match state {
        case Data =>
          if c == IAC {
            state := HaveIac;
          } else {
            record := record + [c];
          }
        case HaveIac =>
          if c == IAC {
            record, state := record + [c], Data;
          } else if c == WILL || c == WONT || c == DO || c == DONT {
            verb, state := c, HaveVerb;
          } else if c == SB {
            subnegotiation, state := [], InSub;
          } else if c == EOR {
            OnRecord();
            state := Data;
          } else {
            state := Data;
          }
        case HaveVerb =>
          OnVerb(verb, c);
          state := Data;
        case InSub =>
          if c == IAC {
            state := SubIac;
          } else {
            subnegotiation := subnegotiation + [c];
          }
        case SubIac =>
          if c == IAC {
            subnegotiation, state := subnegotiation + [c], InSub;
          } else if c == SE {
            OnSubnegotiation(subnegotiation);
            subnegotiation, state := [], Data;
          } else {
            state := InSub;
          }
      }
    }

    // One socket read.
    method ReadBuffer(buffer: seq<byte>)
      modifies this
      ensures View() == Feed(old(View()), buffer, serves)
    {
      hide Receive;
      for i := 0 to |buffer|
        invariant Feed(View(), buffer[i..], serves) == Feed(old(View()), buffer, serves)
      {
        assert buffer[i..][1..] == buffer[i + 1..];
        OnOctet(buffer[i]);
      }
    }
  }
}
