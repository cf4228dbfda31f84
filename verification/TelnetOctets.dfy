// The 5250 Telnet session octet by octet: what a record looks like on the
// wire, how each verb is answered, and which histories make a session ready.
module TelnetOctets {
  import opened Bytes
  import opened Telnet

  // ---- records ------------------------------------------------------------------

  // RFC 854 doubles an octet of 255.
  function Doubled(octets: seq<byte>): seq<byte> {
    if octets == [] then [] else (if octets[0] == 0xFF then [0xFF, 0xFF] else [octets[0]]) + Doubled(octets[1..])
  }

  lemma {:induction false} EscapeDoubles(octets: seq<byte>)
    ensures Escape(octets) == Doubled(octets)
  {
    if octets != [] {
      EscapeDoubles(octets[1..]);
    }
  }

  // A logical record as section 3 of RFC 1205 lays it out: the length of the
  // whole before doubling, 12A0, two reserved octets, the 04 of the variable
  // header, the flags, one more reserved octet, the opcode, the data.
  ghost predicate Logical(octets: seq<byte>, r: Record) {
    && |octets| == 10 + |r.data|
    && (octets[0] as int) * 0x100 + octets[1] == |octets| % 0x1_0000
    && octets[2..7] == [0x12, 0xA0, 0x00, 0x00, 0x04]
    && octets[7] == r.flags && octets[8] == 0x00 && octets[9] == r.opcode && octets[10..] == r.data
  }

  // A record goes out doubled and closed by 255 239, in one way only.
  lemma SentOctets(r: Record)
    ensures exists octets: seq<byte> :: Logical(octets, r) && Wire(r) == Doubled(octets) + [0xFF, 0xEF]
    ensures forall octets: seq<byte> | Logical(octets, r) :: Wire(r) == Doubled(octets) + [0xFF, 0xEF]
  {
    var frame := Frame(r);
    EscapeDoubles(frame);
    FrameLies(r);
    forall octets: seq<byte> | Logical(octets, r)
      ensures octets == frame
    {
      SameLogical(octets, frame, r);
    }
  }

  lemma FrameLies(r: Record)
    ensures Logical(Frame(r), r)
  {
    var n := 10 + |r.data|;
    var frame := Frame(r);
    assert frame[2..7] == [0x12, 0xA0, 0x00, 0x00, 0x04] && frame[10..] == r.data;
    HighLow(n);
  }

  lemma HighLow(n: nat)
    ensures n / 0x100 % 0x100 * 0x100 + n % 0x100 == n % 0x1_0000
  {
    var q := n / 0x1_0000;
    assert n == q * 0x1_0000 + n % 0x1_0000;
    assert n / 0x100 == q * 0x100 + n % 0x1_0000 / 0x100;
  }

  lemma SameLogical(a: seq<byte>, b: seq<byte>, r: Record)
    requires Logical(a, r) && Logical(b, r)
    ensures a == b
  {
    forall i | 0 <= i < |a|
      ensures a[i] == b[i]
    {
      if 2 <= i < 7 {
        assert a[2..7][i - 2] == b[2..7][i - 2];
      } else if i >= 10 {
        assert a[10..][i - 10] == b[10..][i - 10];
      }
    }
  }

  // And any record so closed is handed up with its own opcode, flags and data,
  // or dropped when it is shorter than the header.
  lemma ReceivedOctets(s: Session, octets: seq<byte>, serves: Serves)
    requires s.state == Data && s.record == []
    ensures var t := Feed(s, Doubled(octets) + [0xFF, 0xEF], serves);
            && t.state == Data && t.record == []
            && t.delivered == s.delivered + if |octets| < 10 then [] else [Record(octets[9], octets[7], octets[10..])]
  {
    var pieces := Octets(octets) + [EndRecord];
    EscapeDoubles(octets);
    StreamAppend(Octets(octets), [EndRecord]);
    OctetsAreEscape(octets);
    assert [EndRecord][1..] == [] && Stream([]) == [] && Stream([EndRecord]) == [0xFF, 0xEF];
    StreamReads(s, pieces, serves);
    ReadAllAppend(In(s), Octets(octets), [EndRecord]);
    OctetsRead(In(s), octets);
    assert [] + octets == octets;
    EndReads(Inbox(octets, s.delivered));
  }

  // ---- verbs ---------------------------------------------------------------------

  // What one verb does to the options and what goes out for it.
  ghost predicate Heard(s: Session, t: Session, verb: byte, option: byte, reply: seq<byte>) {
    && t.state == Data && t.record == s.record && t.delivered == s.delivered && t.terminalType == s.terminalType
    && t.mismatches == s.mismatches && t.written == s.written + reply
    && (forall o: byte | o != option ::
          && (o in t.options.peerWill <==> o in s.options.peerWill)
             && (o in t.options.peerDo <==> o in s.options.peerDo)
          && (o in t.options.weSentDo <==> o in s.options.weSentDo)
          && (o in t.options.weSentWill <==> o in s.options.weSentWill))
  }

  // 255 251: the peer will perform an option.
  lemma WillOctets(s: Session, option: byte, serves: Serves)
    requires s.state == Data && Agreed(s)
    ensures var t, o := Feed(s, [0xFF, 0xFB, option], serves), s.options;
            var ask: seq<byte> := if option == 24 then [0xFF, 0xFA, 24, 1, 0xFF, 0xF0]
                                  else if option == 39 then [0xFF, 0xFA, 39, 1, 0, 3, 0xFF, 0xF0] else [];
            if option in {0, 24, 25, 39} then
              && option in t.options.peerWill && option in t.options.weSentDo
              && (option in t.options.peerDo <==> option in o.peerDo)
              && Heard(s, t, 0xFB, option, (if option in o.weSentDo then [] else [0xFF, 0xFD, option]) + ask)
            else t.options == o && Heard(s, t, 0xFB, option, [0xFF, 0xFE, option])
  {
    VerbArrives(s, 0xFB, option, serves);
    Replies(s.written);
  }

  // 255 252: it will not.
  lemma WontOctets(s: Session, option: byte, serves: Serves)
    requires s.state == Data && Agreed(s)
    ensures var t, o := Feed(s, [0xFF, 0xFC, option], serves), s.options;
            && option !in t.options.peerWill && (option in t.options.peerDo <==> option in o.peerDo)
            && Heard(s, t, 0xFC, option, if option in o.peerWill then [0xFF, 0xFE, option] else [])
  {
    VerbArrives(s, 0xFC, option, serves);
    Replies(s.written);
  }

  // 255 253: the peer asks this side to perform it.
  lemma DoOctets(s: Session, option: byte, serves: Serves)
    requires s.state == Data && Agreed(s)
    ensures var t, o := Feed(s, [0xFF, 0xFD, option], serves), s.options;
            if option in {0, 25} then
              && option in t.options.peerDo && option in t.options.weSentWill
              && (option in t.options.peerWill <==> option in o.peerWill)
              && Heard(s, t, 0xFD, option, if option in o.weSentWill then [] else [0xFF, 0xFB, option])
            else t.options == o && Heard(s, t, 0xFD, option, [0xFF, 0xFC, option])
  {
    VerbArrives(s, 0xFD, option, serves);
    Replies(s.written);
  }

  // 255 254: it asks this side not to.
  lemma DontOctets(s: Session, option: byte, serves: Serves)
    requires s.state == Data && Agreed(s)
    ensures var t, o := Feed(s, [0xFF, 0xFE, option], serves), s.options;
            && option !in t.options.peerDo && (option in t.options.peerWill <==> option in o.peerWill)
            && Heard(s, t, 0xFE, option, if option in o.peerDo then [0xFF, 0xFC, option] else [])
  {
    VerbArrives(s, 0xFE, option, serves);
    Replies(s.written);
  }

  lemma Replies(w: seq<byte>)
    ensures w + [] == w
    ensures forall a: seq<byte>, b: seq<byte> :: w + a + b == w + (a + b)
  {
  }

  // ---- histories -------------------------------------------------------------------

  // The last thing the peer said of performing an option, or of having this
  // side perform it.
  ghost predicate Performs(pieces: seq<Piece>, option: byte) {
    pieces != [] &&
    match pieces[|pieces| - 1]
    case Verb(v, o) =>
      if o == option && v == 0xFB then true
      else if o == option && v == 0xFC then false
      else Performs(pieces[..|pieces| - 1], option)
    case _ => Performs(pieces[..|pieces| - 1], option)
  }

  ghost predicate Permits(pieces: seq<Piece>, option: byte) {
    pieces != [] &&
    match pieces[|pieces| - 1]
    case Verb(v, o) =>
      if o == option && v == 0xFD then true
      else if o == option && v == 0xFE then false
      else Permits(pieces[..|pieces| - 1], option)
    case _ => Permits(pieces[..|pieces| - 1], option)
  }

  // Sub-negotiation 24 0 names a terminal type.
  predicate NamesType(p: Piece) {
    p.Sub? && |p.body| >= 2 && p.body[0] == 24 && p.body[1] == 0
  }

  ghost function TypeNamed(pieces: seq<Piece>): seq<byte> {
    if pieces == [] then []
    else if NamesType(pieces[|pieces| - 1]) then pieces[|pieces| - 1].body[2..]
    else TypeNamed(pieces[..|pieces| - 1])
  }

  // The types named that this endpoint does not serve, in order.
  ghost function NotServed(pieces: seq<Piece>, serves: Serves): seq<seq<byte>> {
    if pieces == [] then []
    else
      var last := pieces[|pieces| - 1];
      NotServed(pieces[..|pieces| - 1], serves)
      + if NamesType(last) && !serves(last.body[2..]) then [last.body[2..]] else []
  }

  ghost predicate AllAgreed(pieces: seq<Piece>) {
    && TypeNamed(pieces) != []
    && Performs(pieces, 25) && Permits(pieces, 25) && Performs(pieces, 0) && Permits(pieces, 0)
  }

  // The session looks for readiness after a verb and after a type it serves.
  predicate Looks(p: Piece, serves: Serves) {
    p.Verb? || (NamesType(p) && serves(p.body[2..]))
  }

  // It was found ready after one of these pieces.
  ghost predicate FoundReady(pieces: seq<Piece>, serves: Serves) {
    exists k | 0 < k <= |pieces| :: Looks(pieces[k - 1], serves) && AllAgreed(pieces[..k])
  }

  // What the session remembers is what the pieces said.
  ghost predicate Remembers(s: Session, pieces: seq<Piece>, serves: Serves) {
    && s.state == Data && s.terminalType == TypeNamed(pieces) && s.mismatches == NotServed(pieces, serves)
    && (forall o: byte :: o in s.options.peerWill <==> o in {0, 24, 25, 39} && Performs(pieces, o))
    && (forall o: byte :: o in s.options.peerDo <==> o in {0, 25} && Permits(pieces, o))
    && (s.signalled <==> FoundReady(pieces, serves))
  }

  lemma ReadyIsAgreed(s: Session, pieces: seq<Piece>, serves: Serves)
    requires Remembers(s, pieces, serves)
    ensures Ready(s) <==> AllAgreed(pieces)
  {
  }

  lemma FoundLater(pieces: seq<Piece>, last: Piece, serves: Serves)
    ensures FoundReady(pieces + [last], serves)
       <==> FoundReady(pieces, serves) || (Looks(last, serves) && AllAgreed(pieces + [last]))
  {
    hide AllAgreed, Looks;
    var all := pieces + [last];
    assert all[..|all|] == all;
    forall k | 0 < k <= |pieces|
      ensures all[..k] == pieces[..k] && all[k - 1] == pieces[k - 1]
    {
    }
    if FoundReady(pieces, serves) {
      var k :| 0 < k <= |pieces| && Looks(pieces[k - 1], serves) && AllAgreed(pieces[..k]);
      assert Looks(all[k - 1], serves) && AllAgreed(all[..k]);
    }
    if Looks(last, serves) && AllAgreed(all) {
      assert Looks(all[|all| - 1], serves) && AllAgreed(all[..|all|]);
    }
    if FoundReady(all, serves) {
      var k :| 0 < k <= |all| && Looks(all[k - 1], serves) && AllAgreed(all[..k]);
      if k < |all| {
        assert Looks(pieces[k - 1], serves) && AllAgreed(pieces[..k]);
      }
    }
  }

  // What one more piece adds to what was said.
  lemma SaidMore(pieces: seq<Piece>, last: Piece, option: byte, serves: Serves)
    ensures var all := pieces + [last];
            && (Performs(all, option)
                <==> if last == Verb(0xFB, option) then true else if last == Verb(0xFC, option) then false
                     else Performs(pieces, option))
            && (Permits(all, option)
                <==> if last == Verb(0xFD, option) then true else if last == Verb(0xFE, option) then false
                     else Permits(pieces, option))
            && TypeNamed(all) == (if NamesType(last) then last.body[2..] else TypeNamed(pieces))
            && NotServed(all, serves) == NotServed(pieces, serves)
                                         + if NamesType(last) && !serves(last.body[2..]) then [last.body[2..]] else []
  {
    assert (pieces + [last])[..|pieces|] == pieces;
  }

  // What one piece does to a session, apart from its records.
  ghost predicate Moved(s: Session, t: Session, p: Piece, serves: Serves) {
    && t.state == Data
    && t.terminalType == (if NamesType(p) then p.body[2..] else s.terminalType)
    && t.mismatches == s.mismatches + (if NamesType(p) && !serves(p.body[2..]) then [p.body[2..]] else [])
    && (forall o: byte :: o in t.options.peerWill
                          <==> if p == Verb(0xFB, o) then o in {0, 24, 25, 39}
                               else if p == Verb(0xFC, o) then false else o in s.options.peerWill)
    && (forall o: byte :: o in t.options.peerDo
                          <==> if p == Verb(0xFD, o) then o in {0, 25}
                               else if p == Verb(0xFE, o) then false else o in s.options.peerDo)
    && (t.signalled <==> s.signalled || (Looks(p, serves) && Ready(t)))
  }

  lemma VerbSignals(s: Session, verb: byte, option: byte)
    ensures var t := HandleVerb(s, verb, option); t.signalled <==> s.signalled || Ready(t)
  {
    hide Negotiate, Ask;
  }

  lemma VerbLooks(s: Session, verb: byte, option: byte, serves: Serves)
    requires s.state == Data && 0xFB <= verb <= 0xFE
    ensures var t := Feed(s, [0xFF, verb, option], serves); t.signalled <==> s.signalled || Ready(t)
  {
    hide HandleVerb, Ready, Feed;
    VerbArrives(s, verb, option, serves);
    VerbSignals(s.(verb := verb), verb, option);
    var t := HandleVerb(s.(verb := verb), verb, option);
    ReadyKept(t, t.(state := Data));
  }

  lemma WillMoves(s: Session, option: byte, serves: Serves)
    requires s.state == Data && Agreed(s)
    ensures Moved(s, Feed(s, [0xFF, 0xFB, option], serves), Verb(0xFB, option), serves)
  {
    hide HandleVerb, Ready, Feed;
    VerbLooks(s, 0xFB, option, serves);
    WillOctets(s, option, serves);
    assert s.mismatches + [] == s.mismatches;
  }

  lemma WontMoves(s: Session, option: byte, serves: Serves)
    requires s.state == Data && Agreed(s)
    ensures Moved(s, Feed(s, [0xFF, 0xFC, option], serves), Verb(0xFC, option), serves)
  {
    hide HandleVerb, Ready, Feed;
    VerbLooks(s, 0xFC, option, serves);
    WontOctets(s, option, serves);
    assert s.mismatches + [] == s.mismatches;
  }

  lemma DoMoves(s: Session, option: byte, serves: Serves)
    requires s.state == Data && Agreed(s)
    ensures Moved(s, Feed(s, [0xFF, 0xFD, option], serves), Verb(0xFD, option), serves)
  {
    hide HandleVerb, Ready, Feed;
    VerbLooks(s, 0xFD, option, serves);
    DoOctets(s, option, serves);
    assert s.mismatches + [] == s.mismatches;
  }

  lemma DontMoves(s: Session, option: byte, serves: Serves)
    requires s.state == Data && Agreed(s)
    ensures Moved(s, Feed(s, [0xFF, 0xFE, option], serves), Verb(0xFE, option), serves)
  {
    hide HandleVerb, Ready, Feed;
    VerbLooks(s, 0xFE, option, serves);
    DontOctets(s, option, serves);
    assert s.mismatches + [] == s.mismatches;
  }

  lemma VerbMoves(s: Session, verb: byte, option: byte, serves: Serves)
    requires s.state == Data && Agreed(s) && 0xFB <= verb <= 0xFE
    ensures Moved(s, Feed(s, [0xFF, verb, option], serves), Verb(verb, option), serves)
  {
    hide Moved, Feed;
    if verb == 0xFB {
      WillMoves(s, option, serves);
    } else if verb == 0xFC {
      WontMoves(s, option, serves);
    } else if verb == 0xFD {
      DoMoves(s, option, serves);
    } else {
      DontMoves(s, option, serves);
    }
  }

  lemma ReadyKept(s: Session, t: Session)
    requires s.terminalType == t.terminalType && s.options == t.options
    ensures Ready(s) <==> Ready(t)
  {
  }

  lemma SubActs(s: Session, body: seq<byte>, serves: Serves)
    ensures var t, named := HandleSub(s, body, serves), NamesType(Sub(body));
            && t.options.peerWill == s.options.peerWill && t.options.peerDo == s.options.peerDo
            && t.terminalType == (if named then body[2..] else s.terminalType)
            && t.mismatches == (if named && !serves(body[2..]) then s.mismatches + [body[2..]] else s.mismatches)
            && (t.signalled <==> s.signalled || (named && serves(body[2..]) && Ready(t)))
  {
    hide Ready;
    if NamesType(Sub(body)) && serves(body[2..]) {
      var typed := s.(terminalType := body[2..]);
      var opened_ := OfferWill(OfferDo(OfferWill(OfferDo(typed, 25), 25), 0), 0);
      OffersKeep(typed, 25);
      OffersKeep(OfferDo(typed, 25), 25);
      OffersKeep(OfferWill(OfferDo(typed, 25), 25), 0);
      OffersKeep(OfferDo(OfferWill(OfferDo(typed, 25), 25), 0), 0);
      hide OfferDo, OfferWill;
      SignalsReady(opened_);
    }
  }

  lemma OffersKeep(s: Session, option: byte)
    ensures var t := OfferDo(s, option);
            && t.options.peerWill == s.options.peerWill && t.options.peerDo == s.options.peerDo
            && t.terminalType == s.terminalType && t.mismatches == s.mismatches && t.signalled == s.signalled
    ensures var t := OfferWill(s, option);
            && t.options.peerWill == s.options.peerWill && t.options.peerDo == s.options.peerDo
            && t.terminalType == s.terminalType && t.mismatches == s.mismatches && t.signalled == s.signalled
  {
  }

  lemma SignalsReady(s: Session)
    ensures var t := SignalReady(s);
            && t.options == s.options && t.terminalType == s.terminalType && t.mismatches == s.mismatches
            && (t.signalled <==> s.signalled || Ready(t))
  {
  }

  lemma TypeMoves(s: Session, body: seq<byte>, serves: Serves)
    requires s.state == Data && Agreed(s)
    ensures Moved(s, Feed(s, Sub(body).Encode(), serves), Sub(body), serves)
  {
    hide HandleSub, Ready, Feed, Agreed;
    SubArrives(s, body, serves);
    var u := s.(state := SubIac, sub := body);
    SubActs(u, body, serves);
    var t := HandleSub(u, body, serves);
    ReadyKept(t, t.(sub := [], state := Data));
    assert s.mismatches + [] == s.mismatches;
  }

  // What goes out for a type this endpoint serves: requests and offers of
  // END-OF-RECORD and BINARY that have not gone out yet, and nothing for
  // another.
  lemma TypeOctets(s: Session, named: seq<byte>, serves: Serves)
    requires s.state == Data
    ensures var t, o := Feed(s, [0xFF, 0xFA, 24, 0] + Doubled(named) + [0xFF, 0xF0], serves), s.options;
            t.written
            == if !serves(named) then s.written
               else s.written + (if 25 in o.weSentDo then [] else [0xFF, 0xFD, 25])
                    + (if 25 in o.weSentWill then [] else [0xFF, 0xFB, 25])
                    + (if 0 in o.weSentDo then [] else [0xFF, 0xFD, 0])
                    + (if 0 in o.weSentWill then [] else [0xFF, 0xFB, 0])
  {
    var body := [24, 0] + named;
    hide HandleSub, Feed, Escape;
    SubArrives(s, body, serves);
    TypeSpelled(named);
    TypeReplies(s.(state := SubIac, sub := body), named, serves);
  }

  lemma TypeSpelled(named: seq<byte>)
    ensures Sub([24, 0] + named).Encode() == [0xFF, 0xFA, 24, 0] + Doubled(named) + [0xFF, 0xF0]
  {
    var body := [24, 0] + named;
    EscapeDoubles(body);
    assert body[1..] == [0] + named && ([0] + named)[1..] == named;
    assert Doubled([0] + named) == [0] + Doubled(named);
    assert Doubled(body) == [24] + ([0] + Doubled(named));
  }

  lemma TypeReplies(s: Session, named: seq<byte>, serves: Serves)
    ensures var t, o := HandleSub(s, [24, 0] + named, serves), s.options;
            t.written
            == if !serves(named) then s.written
               else s.written + (if 25 in o.weSentDo then [] else [0xFF, 0xFD, 25])
                    + (if 25 in o.weSentWill then [] else [0xFF, 0xFB, 25])
                    + (if 0 in o.weSentDo then [] else [0xFF, 0xFD, 0])
                    + (if 0 in o.weSentWill then [] else [0xFF, 0xFB, 0])
  {
    assert ([24, 0] + named)[2..] == named;
    assert s.written + [] == s.written;
    var typed := s.(terminalType := named);
    Offers(typed, 25);
    var a := OfferDo(typed, 25);
    Offers(a, 25);
    var b := OfferWill(a, 25);
    Offers(b, 0);
    var c := OfferDo(b, 0);
    Offers(c, 0);
    var d := OfferWill(c, 0);
    hide OfferDo, OfferWill;
    assert HandleSub(s, [24, 0] + named, serves).written == if serves(named) then d.written else s.written;
  }

  lemma Offers(s: Session, option: byte)
    ensures var t := OfferDo(s, option);
            && t.written == s.written + (if option in s.options.weSentDo then [] else [0xFF, 0xFD, option])
            && t.options.weSentWill == s.options.weSentWill
            && forall o: byte | o != option :: o in t.options.weSentDo <==> o in s.options.weSentDo
    ensures var t := OfferWill(s, option);
            && t.written == s.written + (if option in s.options.weSentWill then [] else [0xFF, 0xFB, option])
            && t.options.weSentDo == s.options.weSentDo
            && forall o: byte | o != option :: o in t.options.weSentWill <==> o in s.options.weSentWill
  {
    assert s.written + [] == s.written;
  }

  lemma PieceMoves(s: Session, p: Piece, serves: Serves)
    requires s.state == Data && Agreed(s) && p.Sound()
    ensures Moved(s, Feed(s, p.Encode(), serves), p, serves)
  {
    hide Moved;
    match p {
      case Verb(v, option) => VerbMoves(s, v, option, serves);
      case Sub(body) => TypeMoves(s, body, serves);
      case _ => PlainMoves(s, p, serves);
    }
  }

  lemma PlainMoves(s: Session, p: Piece, serves: Serves)
    requires s.state == Data && p.Sound() && !p.Verb? && !p.Sub?
    ensures Moved(s, Feed(s, p.Encode(), serves), p, serves)
  {
    FeedTwo(s, p.Encode(), serves);
    assert s.mismatches + [] == s.mismatches;
  }

  lemma MovedRemembers(s: Session, t: Session, pieces: seq<Piece>, p: Piece, serves: Serves)
    requires Remembers(s, pieces, serves) && Moved(s, t, p, serves)
    ensures Remembers(t, pieces + [p], serves)
  {
    hide FoundReady, Ready, AllAgreed, Performs, Permits;
    var all := pieces + [p];
    forall o: byte
      ensures o in t.options.peerWill <==> o in {0, 24, 25, 39} && Performs(all, o)
      ensures o in t.options.peerDo <==> o in {0, 25} && Permits(all, o)
    {
      SaidMore(pieces, p, o, serves);
    }
    SaidMore(pieces, p, 0, serves);
    AgreedSo(t, all);
    FoundLater(pieces, p, serves);
  }

  lemma AgreedSo(t: Session, pieces: seq<Piece>)
    requires t.terminalType == TypeNamed(pieces)
    requires forall o: byte :: o in t.options.peerWill <==> o in {0, 24, 25, 39} && Performs(pieces, o)
    requires forall o: byte :: o in t.options.peerDo <==> o in {0, 25} && Permits(pieces, o)
    ensures Ready(t) <==> AllAgreed(pieces)
  {
  }

  // After any complete exchange, cut anyhow by data and records: the session
  // knows the last type named and what the peer last said of each option, it
  // is ready exactly when a type is named and all four agreements stand, and
  // the ready callback ran exactly if they stood when it looked.
  lemma {:induction false} HistoryDecides(pieces: seq<Piece>, serves: Serves)
    requires forall i | 0 <= i < |pieces| :: pieces[i].Sound()
    ensures var s := Feed(START, Stream(pieces), serves);
            && Agreed(s) && Remembers(s, pieces, serves) && (Ready(s) <==> AllAgreed(pieces))
            && s.readyCalls == if FoundReady(pieces, serves) then 1 else 0
    decreases |pieces|
  {
    hide Remembers, Ready, AllAgreed, FoundReady, Moved;
    FeedAgrees(START, Stream(pieces), serves);
    if pieces == [] {
      StartRemembers(serves);
    } else {
      var n := |pieces| - 1;
      var s := Feed(START, Stream(pieces[..n]), serves);
      HistoryDecides(pieces[..n], serves);
      assert pieces == pieces[..n] + [pieces[n]];
      StreamAppend(pieces[..n], [pieces[n]]);
      OneInStream(pieces[n]);
      FeedAppend(START, Stream(pieces[..n]), pieces[n].Encode(), serves);
      assert s.state == Data by {
        StreamReads(START, pieces[..n], serves);
      }
      PieceMoves(s, pieces[n], serves);
      MovedRemembers(s, Feed(s, pieces[n].Encode(), serves), pieces[..n], pieces[n], serves);
    }
    var s := Feed(START, Stream(pieces), serves);
    ReadyIsAgreed(s, pieces, serves);
    SignalledIsFound(s, pieces, serves);
  }

  lemma SignalledIsFound(s: Session, pieces: seq<Piece>, serves: Serves)
    requires Remembers(s, pieces, serves) && Agreed(s)
    ensures s.readyCalls == if FoundReady(pieces, serves) then 1 else 0
  {
    hide FoundReady;
  }

  lemma OneInStream(p: Piece)
    ensures Stream([p]) == p.Encode()
  {
    assert [p][1..] == [] && Stream([]) == [];
  }

  lemma StartRemembers(serves: Serves)
    ensures Remembers(Feed(START, Stream([]), serves), [], serves)
  {
  }

  // In particular: a type this endpoint serves, then the four agreements in
  // any order, with anything but a withdrawal between them, make the session
  // ready and call back once.
  lemma AgreementMakesReady(pieces: seq<Piece>, serves: Serves)
    requires forall i | 0 <= i < |pieces| :: pieces[i].Sound()
    requires AllAgreed(pieces) && pieces != [] && Looks(pieces[|pieces| - 1], serves)
    ensures var s := Feed(START, Stream(pieces), serves); Ready(s) && s.readyCalls == 1
  {
    HistoryDecides(pieces, serves);
    assert pieces[..|pieces|] == pieces;
    assert Looks(pieces[|pieces| - 1], serves) && AllAgreed(pieces[..|pieces|]);
  }
}
