/** `parse_message` of utils.c: header, body and attributes, one cursor. */
module Parser {
  import opened Bytes
  import opened Numerals
  import opened Message
  import opened FieldMachine
  import opened Bodies
  import H = Header
  import A = Attributes

  /** Undefined: an action read an unset pointer or wrote behind an array. `attr` are the units copied,
      at most 19; the other attributes stay as they were. */
  datatype Reading = Accepted(msg: Msg, attr: seq<seq<byte>>) | Rejected | Undefined

  datatype Head = Head(code: H.Code, p: nat, t: int, token: nat)

  /** `frob_header_extract`; `want` is the predefined type, or 0. The cursor is moved as soon as a header
      is found, type and token are stored when the type is the one wanted. */
  function ReadHead(s: seq<byte>, want: int, token: nat): (h: Head)
    ensures h.p <= |s|
    ensures h.code == H.Ok ==> exists n: nat :: n + 4 == h.p && H.IsHeader(s, n)
  {
    H.HeaderFound(s);
    var r := H.Run(H.InToken(0), s, H.Scan(0, None, None));
    if r.typeEnd.None? then Head(H.BadMsg, 0, want, token)
    else
      var n := r.tokenEnd.value;
      assert H.IsHeader(s, n);
      var t := DeserializeType(s[n + 1], s[n + 2]);
      if want != 0 && want != t then Head(H.NoMsg, r.p, want, token) else Head(H.Ok, r.p, t, ParseHex(s[..n]))
  }

  /** Over all byte strings, with a type predefined or not: the header is taken exactly if there is one of that type. */
  lemma HeadMeans(s: seq<byte>, want: int, token: nat, n: nat)
    ensures var h := ReadHead(s, want, token);
            && (H.IsHeader(s, n) ==>
                  && h.p == n + 4
                  && (h.code == H.Ok <==> want == 0 || want == DeserializeType(s[n + 1], s[n + 2]))
                  && (h.code == H.Ok ==> h.t == DeserializeType(s[n + 1], s[n + 2]) && h.token == ParseHex(s[..n]))
                  && (h.code != H.Ok ==> h.code == H.NoMsg && h.t == want && h.token == token))
            && ((forall k: nat :: !H.IsHeader(s, k)) ==> h == Head(H.BadMsg, 0, want, token))
  {
    hide H.Run, H.IsHeader, DeserializeType, ParseHex;
    H.HeaderFound(s);
    if H.IsHeader(s, n) {
      assert H.Run(H.InToken(0), s, H.Scan(0, None, None)) == H.Scan(n + 4, Some(n), Some(n + 3));
    }
  }

  /** A token in lower case is the same token. */
  lemma TokenIgnoresCase(x: seq<byte>, y: seq<byte>, rest: seq<byte>, want: int)
    requires SameDigits(x, y) && 1 <= |x| <= 6 && (forall b | b in x || b in y :: IsXdigit(b))
    requires |rest| >= 4 && rest[0] == FS && H.IsName(rest[1], rest[2]) && rest[3] == FS
    ensures ReadHead(x + rest, want, 0) == ReadHead(y + rest, want, 0)
  {
    hide H.IsName, ParseHex, DeserializeType, ReadHead;
    HeaderBefore(x, rest);
    HeaderBefore(y, rest);
    HeadMeans(x + rest, want, 0, |x|);
    HeadMeans(y + rest, want, 0, |y|);
    CaseIsIgnored(x, y);
  }

  lemma HeaderBefore(x: seq<byte>, rest: seq<byte>)
    requires 1 <= |x| <= 6 && forall b | b in x :: IsXdigit(b)
    requires |rest| >= 4 && rest[0] == FS && H.IsName(rest[1], rest[2]) && rest[3] == FS
    ensures var s, n := x + rest, |x|;
            && H.IsHeader(s, n) && s[..n] == x && s[n + 1] == rest[1] && s[n + 2] == rest[2] && s[n + 4..] == rest[4..]
  {
    hide H.IsName;
    var s := x + rest;
    assert forall k | 0 <= k < |x| :: s[k] == x[k] && x[k] in x;
  }

  datatype Inner = Inner(code: H.Code, p: nat, body: Option<Body>)

  /** `frob_body_extract`; no body where its behaviour is undefined. */
  function ReadBody(t: int, s: seq<byte>, p: nat): (r: Inner)
    requires p <= |s|
    ensures p <= r.p <= |s|
    ensures r.code == H.Ok && r.body.Some? ==> TypeOf(r.body.value) == t
  {
    var g := Grammar(t, |s|);
    if g.None? then Inner(H.NoSys, p, Some(BodyT1))
    else
      var h := Run(g.value, START, s, p);
      OutWithinRow(g.value, START, s, p);
      if !IsSafe(t, g.value, h.cf.out) then Inner(H.Ok, h.p, None)
      else
        GrammarLength(t, |s|);
        Inner(CodeOf(t, h), h.p, Some(Build(t, ValuesRead(g.value, h.cf.out))))
  }

  lemma GrammarLength(t: int, n: nat)
    requires Grammar(t, n).Some?
    ensures Grammar(t, |Grammar(t, n).value|) == Grammar(t, n)
  {
  }

  lemma {:induction false} OutWithinRow(g: seq<Rule>, cf: Conf, s: seq<byte>, p: nat)
    requires p <= |s| && Sane(cf, p) && |cf.out| == cf.rule <= |g|
    ensures var h := Run(g, cf, s, p); |h.cf.out| == h.cf.rule <= |g|
    decreases |s| - p
  {
    if p < |s| && Step(g, cf, s, p).Some? {
      OutWithinRow(g, Step(g, cf, s, p).value, s, p + 1);
    }
  }

  /** `parse_message` on the bytes from `p` to `pe`, into a zeroed message */
  function Parse(s: seq<byte>, want: int): Reading {
    var h := ReadHead(s, want, 0);
    if h.code != H.Ok then Rejected
    else
      var b := ReadBody(h.t, s, h.p);
      if b.body.None? then Undefined
      else if b.code != H.Ok then Rejected
      else
        var a := A.Run(A.FRESH, s, b.p);
        if Wild in a.cf.units then Undefined
        else if A.IsFinal(a) then Accepted(Msg(h.token, b.body.value), A.Copied(a.cf.units))
        else Rejected
  }

  /** The locals and the message of `parse_message`. */
  class Extractor {
    const s: seq<byte>
    var cur: nat
    var code: H.Code
    var t: int
    var token: nat
    var body: Option<Body>
    var units: seq<Captured>

    constructor (s: seq<byte>, want: int)
      ensures this.s == s && cur == 0 && t == want && token == 0 && body == Some(BodyT1) && units == []
    {
      this.s, cur, code, t, token, body, units := s, 0, H.Ok, want, 0, Some(BodyT1), [];
    }

    method HeaderExtract()
      requires cur == 0
      modifies this
      ensures Head(code, cur, t, token) == ReadHead(s, old(t), old(token)) && units == old(units)
    {
      hide DeserializeType, ParseHex, H.Step, H.IsName;
      H.HeaderFound(s);
      var st, h := H.InToken(0), H.Scan(0, None, None);
      while h.p < |s|
        invariant h.p <= |s| && H.Run(H.InToken(0), s, H.Scan(0, None, None)) == H.Run(st, s, h)
        decreases |s| - h.p
      {
        var next := H.Step(st, s[h.p]);
        if next.None? {
          break;
        }
        h := H.Noted(st, s[h.p], h);
        st := next.value;
      }
      if h.typeEnd.None? || h.tokenEnd.None? {
        code := H.BadMsg;
        return;
      }
      cur := h.p;
      var n := h.tokenEnd.value;
      var found := DeserializeType(s[h.typeEnd.value - 2], s[h.typeEnd.value - 1]);
      H.NamesAreTypes(s[n + 1], s[n + 2]);
      if t != 0 && t != found {
        code := H.NoMsg;
        return;
      }
      // the source asserts that strtoul stops at the separator: it reads digits only, at most six
      assert n <= 6 && forall k | 0 <= k < n :: IsXdigit(s[k]);
      t := found;
      token := ParseHex(s[..n]);
      code := H.Ok;
    }

    method BodyExtract()
      requires cur <= |s|
      modifies this
      ensures Inner(code, cur, body) == ReadBody(t, s, old(cur))
      ensures t == old(t) && token == old(token) && units == old(units)
    {
      var g := Grammar(t, |s|);
      if g.None? {
        code, body := H.NoSys, Some(BodyT1);
        return;
      }
      var h := Exec(g.value, s, cur);
      OutWithinRow(g.value, START, s, cur);
      cur := h.p;
      if !IsSafe(t, g.value, h.cf.out) {
        code, body := H.Ok, None;
        return;
      }
      GrammarLength(t, |s|);
      code, body := CodeOf(t, h), Some(Build(t, ValuesRead(g.value, h.cf.out)));
    }

    /** `frob_extract_additional_attributes`; the units are what its copies saw, from an unset pointer too. */
    method AttributesExtract()
      requires cur <= |s|
      modifies this
      ensures var a := A.Run(A.FRESH, s, old(cur));
              && cur == a.p && units == a.cf.units
              && code == (if A.IsFinal(a) then H.Ok else H.NotRecoverable) && (code == H.Ok ==> cur == |s|)
      ensures t == old(t) && token == old(token) && body == old(body)
    {
      hide A.Next, A.Unit;
      var cf := A.FRESH;
      while cur < |s|
        invariant cur <= |s| && t == old(t) && token == old(token) && body == old(body)
        invariant cf.mark.Some? ==> cf.mark.value <= cur
        invariant A.Run(A.FRESH, s, old(cur)) == A.Run(cf, s, cur)
        decreases |s| - cur
      {
        var next := A.Next(cf, s, cur);
        if next.None? {
          units, code := cf.units, H.NotRecoverable;
          return;
        }
        cf := next.value;
        cur := cur + 1;
      }
      units := cf.units;
      code := if cf.st.Outside? || cf.st.Past? then H.Ok else H.NotRecoverable;
    }

    /** Where all three parts succeed, the whole message has been read: the source asserts it. */
    method ParseMessage() returns (r: Reading)
      requires cur == 0 && token == 0
      modifies this
      ensures r == Parse(s, old(t))
      ensures r.Accepted? ==> cur == |s| && body.Some? && r.msg == Msg(token, body.value) && r.attr == A.Copied(units)
    {
      hide A.Run, A.IsFinal, ReadHead, ReadBody;
      HeaderExtract();
      if code != H.Ok {
        return Rejected;
      }
      BodyExtract();
      if body.None? {
        return Undefined;
      }
      if code != H.Ok {
        return Rejected;
      }
      AttributesExtract();
      if Wild in units {
        return Undefined;
      }
      if code != H.Ok {
        return Rejected;
      }
      assert cur == |s|;
      r := Accepted(Msg(token, body.value), A.Copied(units));
    }
  }
}
