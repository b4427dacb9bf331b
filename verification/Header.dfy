/** The header machine of fsm/header.rl. */
module Header {
  import opened Bytes
  import opened Numerals
  import opened Message

  datatype Code = Ok | Perm | BadMsg | NoMsg | NoSys | NotRecoverable

  // ----- header

  /** The alternatives of `type`. */
  predicate IsName(cla: byte, sub: byte) {
    || (cla == 'T' as int && 0x31 <= sub <= 0x35)
    || (cla == 'S' as int && 0x31 <= sub <= 0x32)
    || (cla in {'A' as int, 'P' as int, 'M' as int, 'L' as int} && sub == 0x31)
    || (cla == 'D' as int && (IsDigit(sub) || sub == 'A' as int))
    || (cla == 'K' as int && IsDigit(sub))
    || (cla == 'B' as int && 0x31 <= sub <= 0x34)
  }

  const CLASSES: set<int> :=
    {'T' as int, 'S' as int, 'A' as int, 'P' as int, 'M' as int, 'L' as int, 'D' as int, 'K' as int, 'B' as int}

  datatype State = InToken(digits: nat) | AtClass | AtNumber(cla: byte) | AtEnd | Closed

  function Step(st: State, b: byte): Option<State> {
    match st
    case InToken(n) =>
      if IsXdigit(b) && n < 6 then Some(InToken(n + 1))
      else if b == FS && n >= 1 then Some(AtClass)
      else None
    case AtClass => if b in CLASSES then Some(AtNumber(b)) else None
    case AtNumber(cla) => if IsName(cla, b) then Some(AtEnd) else None
    case AtEnd => if b == FS then Some(Closed) else None
    case Closed => None
  }

  datatype Scan = Scan(p: nat, tokenEnd: Option<nat>, typeEnd: Option<nat>)

  /** `write exec`; the entering actions of the two FS note their places. */
  function Run(st: State, s: seq<byte>, h: Scan): (r: Scan)
    requires h.p <= |s|
    ensures h.p <= r.p <= |s|
    decreases |s| - h.p
  {
    if h.p == |s| || Step(st, s[h.p]).None? then h
    else Run(Step(st, s[h.p]).value, s, Noted(st, s[h.p], h))
  }

  function Noted(st: State, b: byte, h: Scan): Scan {
    h.(p := h.p + 1,
       tokenEnd := if st.InToken? && b == FS then Some(h.p) else h.tokenEnd,
       typeEnd := if st.AtEnd? then Some(h.p) else h.typeEnd)
  }

  /** A header, said without the machine: n hexadecimal digits, a separator, a type name, a separator. */
  predicate IsHeader(s: seq<byte>, n: nat) {
    && 1 <= n <= 6 && n + 4 <= |s|
    && (forall k | 0 <= k < n :: IsXdigit(s[k]))
    && s[n] == FS && IsName(s[n + 1], s[n + 2]) && s[n + 3] == FS
  }

  /** The machine finds a header exactly if there is one, and stops behind it. */
  lemma HeaderFound(s: seq<byte>)
    ensures var r := Run(InToken(0), s, Scan(0, None, None));
            && (forall n: nat | IsHeader(s, n) :: r == Scan(n + 4, Some(n), Some(n + 3)))
            && ((forall n: nat :: !IsHeader(s, n)) ==> r.typeEnd.None?)
            && (r.typeEnd.Some? ==> r.tokenEnd.Some? && IsHeader(s, r.tokenEnd.value)
                                    && r.p == r.tokenEnd.value + 4 && r.typeEnd.value == r.tokenEnd.value + 3)
  {
    TokenFound(s, 0);
  }

  lemma {:induction false} TokenFound(s: seq<byte>, d: nat)
    requires d <= 6 && d <= |s| && forall k | 0 <= k < d :: IsXdigit(s[k])
    ensures var r := Run(InToken(d), s, Scan(d, None, None));
            && (forall n: nat | IsHeader(s, n) :: r == Scan(n + 4, Some(n), Some(n + 3)))
            && ((forall n: nat :: !IsHeader(s, n)) ==> r.typeEnd.None?)
            && (r.typeEnd.Some? ==> r.tokenEnd.Some? && IsHeader(s, r.tokenEnd.value)
                                    && r.p == r.tokenEnd.value + 4 && r.typeEnd.value == r.tokenEnd.value + 3)
    decreases 6 - d
  {
    hide IsName;
    assert !IsXdigit(FS);
    if d < |s| {
      if IsXdigit(s[d]) && d < 6 {
        TokenFound(s, d + 1);
      } else if s[d] == FS && d >= 1 {
        NameFound(s, d);
        if d + 4 <= |s| && IsName(s[d + 1], s[d + 2]) && s[d + 3] == FS {
          assert IsHeader(s, d);
        }
      }
    }
  }

  lemma NameFound(s: seq<byte>, n: nat)
    requires n < |s| && s[n] == FS
    ensures var r := Run(AtClass, s, Scan(n + 1, Some(n), None));
            if n + 4 <= |s| && IsName(s[n + 1], s[n + 2]) && s[n + 3] == FS
            then r == Scan(n + 4, Some(n), Some(n + 3))
            else r.tokenEnd == Some(n) && r.typeEnd == None
  {
    hide IsName;
    if n + 1 < |s| {
      NamesHaveClass(s[n + 1]);
      if s[n + 1] in CLASSES {
        if n + 2 < |s| {
          if IsName(s[n + 1], s[n + 2]) {
            var g, h := Scan(n + 3, Some(n), None), Scan(n + 4, Some(n), Some(n + 3));
            if n + 3 < |s| {
              assert Run(Closed, s, h) == h;
            }
            assert Run(AtEnd, s, g) == if n + 3 < |s| && s[n + 3] == FS then h else g;
          }
        }
      }
    }
  }

  lemma NamesHaveClass(cla: byte)
    ensures forall sub: byte :: IsName(cla, sub) ==> cla in CLASSES
  {
  }

  /** Every name the machine lets through is known to `deserialize_type`; it knows I1 and A2 besides. */
  lemma NamesAreTypes(cla: byte, sub: byte)
    requires IsName(cla, sub)
    ensures IsType(DeserializeType(cla, sub))
  {
    hide IsType, DeserializeType;
    if cla in {'T' as int, 'B' as int, 'L' as int} || (cla == 'D' as int && 0x30 <= sub <= 0x35) {
      KnownType(cla, sub, LOCAL_TYPES);
    } else if cla in {'S' as int, 'P' as int, 'A' as int} {
      KnownType(cla, sub, PAYMENT_TYPES);
    } else if cla == 'D' as int {
      KnownType(cla, sub, MAPPED_TYPES);
    } else if cla == 'K' as int {
      KnownType(cla, sub, UI_TYPES);
    } else {
      KnownType(cla, sub, {FROB_M1 - FROB_STORAGE});
    }
  }

  /** The names let through are those of all types but I1 and A2; and "DA", as which no type is written. */
  lemma NamesExactly(t: TypeCode)
    ensures var n := TypeToString(t); IsName(n[0], n[1]) <==> t !in {FROB_I1, FROB_A2, FROB_DA}
    ensures IsName('D' as int, 'A' as int)
  {
    hide IsType;
    assert IsType(t);
    if t < FROB_PAYMENT {
      LocalName(t);
    } else {
      OtherName(t);
    }
  }

  lemma LocalName(t: TypeCode)
    requires t < FROB_PAYMENT
    ensures var n := TypeToString(t); IsName(n[0], n[1])
  {
    assert IsType(t);
    CodeOfType(t, FROB_LOCAL);
  }

  lemma OtherName(t: TypeCode)
    requires t >= FROB_PAYMENT
    ensures var n := TypeToString(t); IsName(n[0], n[1]) <==> t !in {FROB_I1, FROB_A2, FROB_DA}
  {
    assert IsType(t);
    CodeOfType(t, Channel(t));
  }

  lemma KnownType(cla: byte, sub: byte, types: set<int>)
    requires types in {LOCAL_TYPES, PAYMENT_TYPES, MAPPED_TYPES, UI_TYPES, {FROB_M1 - FROB_STORAGE}}
    requires GetClass(cla) + Hex2Nibble(sub) in types
    ensures IsType(DeserializeType(cla, sub))
  {
    hide GetClass, Hex2Nibble;
  }
}
