/** The loop body of autoresponder.c: a question is parsed, and the answer written into a buffer of 1024 bytes. */
module Autoresponder {
  import opened Bytes
  import opened Numerals
  import opened Message
  import opened Rows
  import opened Conditions
  import opened Parser
  import opened Codec
  import opened Cutting
  import opened Serialization
  import Unread
  import H = Header

  datatype Config = Config(versions: seq<seq<byte>>, info: DeviceInfo, parameters: D5)

  /** The sizes of the C types. */
  predicate IsConfig(c: Config) {
    |c.versions| == 4 && (forall v | v in c.versions :: IsVersion(v)) && InfoSized(c.info) && D5Sized(c.parameters)
  }

  function Zeros(n: nat): seq<byte> {
    seq(n, _ => 0)
  }

  /** `construct_hardcoded_message_body`; None is its failing assertion. */
  function Answer(c: Config, t: int): Option<Body> {
    if t == FROB_T1 then Some(BodyT1)
    else if t == FROB_T3 then Some(BodyT3)
    else if t == FROB_D4 then Some(BodyD4)
    else if t == FROB_P1 then Some(BodyP1)
    else if t == FROB_A1 then Some(BodyA1)
    else if t == FROB_K1 then Some(BodyK1)
    else if t == FROB_T2 then Some(BodyT2(c.info))
    else if t == FROB_B1 then Some(BodyB1(c.info))
    else if t == FROB_B2 then Some(BodyB2(c.info, 0, Zeros(256), Zeros(3)))
    else if t == FROB_T4 then Some(BodyT4(c.versions + seq(16, _ => Zeros(4))))
    else if t == FROB_T5 then Some(BodyT5(c.info.version))
    else if t == FROB_D5 then Some(BodyD5(c.parameters))
    else None
  }

  lemma AnswerFits(c: Config, t: int)
    requires IsConfig(c) && Answer(c, t).Some?
    ensures Sized(Answer(c, t).value) && TypeOf(Answer(c, t).value) == t
  {
  }

  datatype Reply = Nothing | Exit | Abort | Unknown | Sent(n: nat)

  /** The answer to what stands behind the STX, if there is one. */
  function AnswerTo(c: Config, payload: seq<byte>): Option<Msg> {
    match Parse(payload, 0)
    case Accepted(q, _) =>
      var b := Answer(c, TypeOf(q.body) + 1);
      if b.None? then None else Some(Msg(q.token, b.value))
    case _ => None
  }

  lemma {:induction false} HexBound(s: seq<byte>)
    ensures ParseHex(s) < Pow16(|s|)
  {
    if s != [] {
      HexBound(s[..|s| - 1]);
    }
  }

  /** A token that was read is short enough to be written. */
  lemma TokenStaysShort(s: seq<byte>, want: int)
    requires Parse(s, want).Accepted?
    ensures Parse(s, want).msg.token < 0x100_0000
  {
    hide ReadBody, H.IsName, DeserializeType;
    H.HeaderFound(s);
    var n := H.Run(H.InToken(0), s, H.Scan(0, None, None)).tokenEnd.value;
    HexBound(s[..n]);
    PowGrows(n);
  }

  lemma PowGrows(n: nat)
    requires n <= 6
    ensures Pow16(n) <= 0x100_0000
  {
    assert Pow16(2) == 0x100 && Pow16(4) == 0x1_0000 && Pow16(6) == 0x100_0000;
  }

  class Responder {
    const cfg: Config
    const rsp: array<byte>

    constructor (cfg: Config)
      requires IsConfig(cfg)
      ensures this.cfg == cfg && rsp.Length == 1024 && fresh(rsp)
    {
      this.cfg := cfg;
      this.rsp := new byte[1024];
    }

    /** One round of the loop. Whatever is borrowed, the answer is never cut off: "Message skipped" is
        dead code, and what is sent is the whole frame of the answer. */
    method Respond(item: seq<byte>) returns (r: Reply)
      requires IsConfig(cfg) && rsp.Length == 1024
      modifies rsp
      ensures |item| <= 1 ==> r == Nothing
      ensures |item| > 1 ==>
                match Parse(item[1..], 0)
                case Rejected => r == Exit
                case Undefined => r == Unknown
                case Accepted(q, _) =>
                  var a := AnswerTo(cfg, item[1..]);
                  if a.None? then r == Abort
                  else r == Sent(|Full(a.value)|) && r.n <= LIMIT && rsp[..r.n] == Full(a.value)
    {
      hide Parse, Answer, Full, Sized;
      if |item| <= 1 {
        return Nothing;
      }
      var x := new Extractor(item[1..], 0);
      var q := x.ParseMessage();
      match q {
        case Rejected => return Exit;
        case Undefined => return Unknown;
        case Accepted(question, _) =>
          TokenStaysShort(item[1..], 0);
          var b := Answer(cfg, TypeOf(question.body) + 1);
          if b.None? {
            return Abort;
          }
          AnswerFits(cfg, TypeOf(question.body) + 1);
          var w := Serialize(1024, rsp, Msg(question.token, b.value));
          return Sent(w);
      }
    }
  }

  /** Over all byte strings: which questions are answered, with the token of the question and the type behind it.
      For the others `construct_hardcoded_message_body` fails its assertion. */
  lemma Answered(c: Config, payload: seq<byte>)
    requires IsConfig(c) && Parse(payload, 0).Accepted?
    ensures var q, a := Parse(payload, 0).msg, AnswerTo(c, payload);
            && (a.Some? <==> q.body.BodyT1? || q.body.BodyT2? || q.body.BodyT3? || q.body.BodyT4? || q.body.BodyD4?
                             || q.body.BodyB1? || q.body.BodyK0?)
            && (a.Some? ==> a.value.token == q.token && TypeOf(a.value.body) == TypeOf(q.body) + 1)
            && (q.body.BodyT4? ==> a.value.body == BodyT5(c.info.version))
  {
    hide Parse;
    var t := TypeOf(Parse(payload, 0).msg.body) + 1;
    if Answer(c, t).Some? {
      AnswerFits(c, t);
    }
  }

  /** The configuration can be restored by a reader. */
  predicate IsPresentable(c: Config) {
    && IsConfig(c) && PlainInfo(c.info) && PaddedInfo(c.info) && !IsEmpty(c.info.version)
    && PlainKeys(c.parameters.keyName) && NamedKeys(c.parameters.keyName)
  }

  /** What is accepted has the token and the type that were written. */
  lemma HeadIsRead(m: Msg)
    requires Readable(m) && Filled(m.body) && Plain(m.body)
    ensures var r := Parse(Payload(m), 0);
            r.Accepted? && r.msg.token == m.token && TypeOf(r.msg.body) == TypeOf(m.body)
  {
    hide Parse, Payload, TypeOf, Filled, Plain, Sized;
    WholeIsAccepted(m, 0);
  }

  lemma AnswerIsGood(c: Config, t: int, token: nat)
    requires IsPresentable(c) && t in {FROB_T2, FROB_T3, FROB_D5, FROB_B2, FROB_K1} && token < 0x100_0000
    ensures Answer(c, t).Some?
    ensures var b := Answer(c, t).value;
            TypeOf(b) == t && Readable(Msg(token, b)) && Filled(b) && Plain(b) && Restorable(b)
  {
  }

  lemma AnswerContents(c: Config)
    ensures Answer(c, FROB_T2) == Some(BodyT2(c.info)) && Answer(c, FROB_D5) == Some(BodyD5(c.parameters))
    ensures Answer(c, FROB_B2) == Some(BodyB2(c.info, 0, Zeros(256), Zeros(3)))
  {
  }

  /** A whole exchange: what the other side writes is read, answered with its own token and the type that
      follows, and the answer is read by the other side as it was meant. */
  lemma Exchange(c: Config, m: Msg)
    requires IsPresentable(c) && Readable(m) && Filled(m.body) && Plain(m.body)
    requires m.body.BodyT1? || m.body.BodyT2? || m.body.BodyD4? || m.body.BodyB1? || m.body.BodyK0?
    ensures var a := AnswerTo(c, Payload(m));
            && a.Some? && a.value.token == m.token && TypeOf(a.value.body) == TypeOf(m.body) + 1
            && Parse(Payload(a.value), TypeOf(a.value.body)) == Accepted(a.value, [])
            && (m.body.BodyT1? ==> a.value.body == BodyT2(c.info))
            && (m.body.BodyD4? ==> a.value.body == BodyD5(c.parameters))
            && (m.body.BodyB1? ==> a.value.body == BodyB2(c.info, 0, Zeros(256), Zeros(3)))
  {
    hide Parse, Payload, Answer, Plain, Sized, Filled, Restorable, IsPresentable;
    HeadIsRead(m);
    var t := TypeOf(m.body) + 1;
    AnswerIsGood(c, t, m.token);
    AnswerContents(c);
    RoundTrip(Msg(m.token, Answer(c, t).value), t);
  }

  /** The negotiation of versions: the answer to a T3 holds the configured versions, and the other side
      never accepts it; it reads an unset pointer exactly if the first version lets it come to the US behind. */
  lemma NoVersionArrives(c: Config, m: Msg)
    requires IsConfig(c) && Readable(m) && m.body.BodyT3?
    ensures var a := AnswerTo(c, Payload(m));
            && a.Some? && a.value.token == m.token && a.value.body.BodyT4?
            && a.value.body.versions == c.versions + seq(16, _ => Zeros(4))
            && Parse(Payload(a.value), 0)
            == if Unread.ReachesUs(Text(c.versions[0])) then Undefined else Rejected
  {
    hide Parse, Payload, Text;
    BareConditions(m.body);
    HeadIsRead(m);
    var b := Answer(c, FROB_T4).value;
    AnswerFits(c, FROB_T4);
    assert b.versions[0] == c.versions[0];
    Unread.T4NeverRead(Msg(m.token, b), 0);
  }

  /** On the wire: cut at US, the answer holds the configured versions, sixteen empty ones, and FS. */
  lemma VersionsAreSent(c: Config, m: Msg)
    requires IsConfig(c) && Readable(m) && m.body.BodyT3? && forall v | v in c.versions :: US !in Text(v)
    ensures var a := AnswerTo(c, Payload(m));
            && a.Some?
            && var frame, h := Full(a.value), |PrintHex(m.token)| + 5;
               && h + 3 <= |frame|
               && Cut(US, frame[h..|frame| - 2])
               == [Text(c.versions[0]), Text(c.versions[1]), Text(c.versions[2]), Text(c.versions[3])]
                  + seq(16, _ => []) + [[FS]]
  {
    hide Parse, Payload, Text, Full, PrintHex, Cut;
    NoVersionArrives(c, m);
    var a := AnswerTo(c, Payload(m)).value;
    var vs := a.body.versions;
    FullHoldsVersions(a);
    NoTextInZeros();
    assert forall v | v in vs :: v in c.versions || v == Zeros(4);
    VersionsAreCut(Full(a), m.token, vs);
    assert VersionTexts(vs)
        == [Text(c.versions[0]), Text(c.versions[1]), Text(c.versions[2]), Text(c.versions[3])] + seq(16, _ => []);
  }

  lemma NoTextInZeros()
    ensures Text(Zeros(4)) == []
  {
  }
}
