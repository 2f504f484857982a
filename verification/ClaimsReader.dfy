/** A reader of the text that grants and invitations sign: it splits at the bars, matches the labels
    literally, and gets back exactly the claims. */
module ClaimsReader {
  import opened Wrappers
  import opened Bytes
  import opened SignedObjects
  import opened Layouts
  import Hex

  // ---- The reader ----

  /** The pieces between bars. */
  function Fields(b: Bytes): (fields: seq<Bytes>)
    ensures fields != []
  {
    if b == [] then [[]]
    else
      var rest := Fields(b[1..]);
      if b[0] == 124 then [[]] + rest else [[b[0]] + rest[0]] + rest[1..]
  }

  function HalfOf(c: byte): Option<int> {
    if 48 <= c <= 57 then Some(c - 48) else if 97 <= c <= 102 then Some(c - 97 + 10) else None
  }

  function ReadHex(b: Bytes): Option<Bytes> {
    if b == [] then Some([])
    else if |b| == 1 || HalfOf(b[0]).None? || HalfOf(b[1]).None? then None
    else
      match ReadHex(b[2..])
      case None => None
      case Some(rest) =>
        var high: int, low: int := HalfOf(b[0]).value, HalfOf(b[1]).value;
        if 0 <= high < 16 && 0 <= low < 16 then Some([16 * high + low] + rest) else None
  }

  function ReadKey(b: Bytes): (r: Option<Bytes>)
    ensures r.Some? ==> |r.value| == 32
  {
    var r := ReadHex(b);
    if r.Some? && |r.value| == 32 then r else None
  }

  /** `initiate`, `accept` or `both`. */
  function ReadDirection(b: Bytes): Option<Direction> {
    if b == [105, 110, 105, 116, 105, 97, 116, 101] then Some(Initiate)
    else if b == [97, 99, 99, 101, 112, 116] then Some(Accept)
    else if b == [98, 111, 116, 104] then Some(Both)
    else None
  }

  /** `r`, `w` or `rw`. */
  function ReadRights(b: Bytes): Option<Rights> {
    if b == [114] then Some(Read) else if b == [119] then Some(Write) else if b == [114, 119] then Some(ReadWrite) else None
  }

  function ReadFlag(b: Bytes): Option<bool> {
    if b == [49] then Some(true) else if b == [48] then Some(false) else None
  }

  /** The value of decimal digits. */
  function Number(b: Bytes): int {
    if b == [] then 0
    else
      var digit: int := b[|b| - 1];
      10 * Number(b[..|b| - 1]) + (digit - 48)
  }

  function ReadNumber(b: Bytes): (r: Option<int>)
    ensures r.Some? ==> 0 <= r.value < U64_LIMIT
  {
    if b != [] && (forall i | 0 <= i < |b| :: 48 <= b[i] <= 57) && 0 <= Number(b) < U64_LIMIT then Some(Number(b)) else None
  }

  /** Seven fields: the domain and the six claims. */
  function ReadFields(domain: Bytes, f: seq<Bytes>): Option<Claims> {
    if |f| != 7 || f[0] != domain then None
    else
      match (ReadKey(f[1]), ReadKey(f[2]), ReadDirection(f[3]), ReadRights(f[4]), ReadFlag(f[5]), ReadNumber(f[6]))
      case (Some(channel), Some(party), Some(direction), Some(rights), Some(delegable), Some(expiresAt)) =>
        Some(Claims(channel, party, direction, rights, delegable, expiresAt))
      case _ => None
  }

  function ReadClaims(domain: Bytes, b: Bytes): Option<Claims> {
    ReadFields(domain, Fields(b))
  }

  // ---- Splitting ----

  predicate NoBar(b: Bytes) {
    forall i | 0 <= i < |b| :: b[i] != 124
  }

  lemma {:induction false} FieldEndsAtTheBar(field: Bytes, rest: Bytes)
    requires NoBar(field)
    ensures Fields(field + ([124] + rest)) == [field] + Fields(rest)
  {
    var b := field + ([124] + rest);
    if field == [] {
      assert b == [124] + rest && b[1..] == rest;
    } else {
      assert b[1..] == field[1..] + ([124] + rest) && b[0] == field[0];
      FieldEndsAtTheBar(field[1..], rest);
      assert field == [field[0]] + field[1..];
      assert Fields(b[1..])[0] == field[1..] && Fields(b[1..])[1..] == Fields(rest);
    }
  }

  lemma {:induction false} LastField(field: Bytes)
    requires NoBar(field)
    ensures Fields(field) == [field]
  {
    if field != [] {
      LastField(field[1..]);
      assert field == [field[0]] + field[1..];
    }
  }

  // ---- Each field is read back ----

  lemma HexCharsCons(b: Bytes)
    requires b != []
    ensures HexChars(b) == [HexCode(b[0] / 16), HexCode(b[0] % 16)] + HexChars(b[1..])
  {
    var t, u := HexChars(b), [HexCode(b[0] / 16), HexCode(b[0] % 16)] + HexChars(b[1..]);
    forall i | 0 <= i < |t|
      ensures t[i] == u[i]
    {
      HalfIs(b, i);
      if i >= 2 {
        HalfIs(b[1..], i - 2);
        HalfShifts(b, i);
      }
    }
  }

  lemma HalfShifts(b: Bytes, i: nat)
    requires 2 <= i < 2 * |b|
    ensures Half(b, i) == Half(b[1..], i - 2)
  {
    assert (i - 2) / 2 == i / 2 - 1 && (i - 2) % 2 == i % 2;
  }

  lemma HalfOfCode(digit: int)
    requires 0 <= digit < 16
    ensures HalfOf(HexCode(digit)) == Some(digit)
  {
  }

  lemma {:induction false} HexIsReadBack(b: Bytes)
    ensures ReadHex(HexChars(b)) == Some(b) && NoBar(HexChars(b))
  {
    if b != [] {
      var t := HexChars(b);
      HexCharsCons(b);
      HexIsReadBack(b[1..]);
      assert t[2..] == HexChars(b[1..]);
      HalfOfCode(b[0] / 16);
      HalfOfCode(b[0] % 16);
      assert b == [b[0]] + b[1..];
      forall i | 0 <= i < |t|
        ensures t[i] != 124
      {
        HalfIs(b, i);
      }
    }
  }

  predicate IsDigits(s: string) {
    forall i | 0 <= i < |s| :: '0' <= s[i] <= '9'
  }

  lemma {:induction false} NumberOfChars(s: string)
    requires IsDigits(s)
    ensures Number(Chars(s)) == Hex.DecimalValue(s)
  {
    if s != "" {
      var head := s[..|s| - 1];
      NumberOfChars(head);
      assert Chars(s)[..|s| - 1] == Chars(head);
    }
  }

  lemma DigitsAreChars(s: string)
    requires IsDigits(s)
    ensures forall i | 0 <= i < |s| :: 48 <= Chars(s)[i] <= 57
  {
  }

  lemma DecimalIsDigits(n: nat)
    ensures IsDigits(Hex.Decimal(n)) && Hex.Decimal(n) != ""
  {
    var s := Hex.Decimal(n);
    assert forall i | 0 <= i < |s| :: s[i] in s;
  }

  lemma NumberIsReadBack(n: u64)
    ensures ReadNumber(Chars(Hex.Decimal(n))) == Some(n) && NoBar(Chars(Hex.Decimal(n)))
  {
    DecimalIsDigits(n);
    DigitsRead(Hex.Decimal(n), n);
  }

  lemma DigitsRead(s: string, n: u64)
    requires IsDigits(s) && s != "" && s == Hex.Decimal(n)
    ensures ReadNumber(Chars(s)) == Some(n) && NoBar(Chars(s))
  {
    NumberOfChars(s);
    Hex.DecimalRoundTrip(n);
    DigitsAreChars(s);
  }

  function DirectionChars(d: Direction): Bytes {
    Chars(match d case Initiate => "initiate" case Accept => "accept" case Both => "both")
  }

  function RightsChars(r: Rights): Bytes {
    Chars(match r case Read => "r" case Write => "w" case ReadWrite => "rw")
  }

  lemma LabelsAreReadBack(d: Direction, r: Rights)
    ensures ReadDirection(DirectionChars(d)) == Some(d) && NoBar(DirectionChars(d))
    ensures ReadRights(RightsChars(r)) == Some(r) && NoBar(RightsChars(r))
  {
    assert Chars("initiate") == [105, 110, 105, 116, 105, 97, 116, 101];
    assert Chars("accept") == [97, 99, 99, 101, 112, 116];
    assert Chars("both") == [98, 111, 116, 104];
    assert Chars("r") == [114] && Chars("w") == [119] && Chars("rw") == [114, 119];
  }

  // ---- The whole text ----

  lemma SevenFields(a: Bytes, b: Bytes, c: Bytes, d: Bytes, e: Bytes, f: Bytes, g: Bytes)
    requires NoBar(a) && NoBar(b) && NoBar(c) && NoBar(d) && NoBar(e) && NoBar(f) && NoBar(g)
    ensures Fields(a + ([124] + (b + ([124] + (c + ([124] + (d + ([124] + (e + ([124] + (f + ([124] + g))))))))))))
            == [a, b, c, d, e, f, g]
  {
    var t5 := f + ([124] + g);
    var t4 := e + ([124] + t5);
    var t3 := d + ([124] + t4);
    var t2 := c + ([124] + t3);
    var t1 := b + ([124] + t2);
    LastField(g);
    FieldEndsAtTheBar(f, g);
    FieldEndsAtTheBar(e, t5);
    FieldEndsAtTheBar(d, t4);
    FieldEndsAtTheBar(c, t3);
    FieldEndsAtTheBar(b, t2);
    FieldEndsAtTheBar(a, t1);
  }

  function FlagChars(delegable: bool): Bytes {
    if delegable then Chars("1") else Chars("0")
  }

  lemma FlagIsReadBack(delegable: bool)
    ensures ReadFlag(FlagChars(delegable)) == Some(delegable) && NoBar(FlagChars(delegable))
  {
    assert Chars("1") == [49] && Chars("0") == [48];
  }

  lemma ClaimsInFields(c: Claims)
    ensures ClaimsLayout(c)
            == HexChars(c.channel) + ([124] + (HexChars(c.party) + ([124] + (DirectionChars(c.direction)
               + ([124] + (RightsChars(c.rights) + ([124] + (FlagChars(c.delegable) + ([124] + Chars(Hex.Decimal(c.expiresAt)))))))))))
  {
  }

  lemma ClaimsAreReadBack(domain: Bytes, c: Claims)
    requires NoBar(domain)
    ensures ReadClaims(domain, domain + ([124] + ClaimsLayout(c))) == Some(c)
  {
    HexIsReadBack(c.channel);
    HexIsReadBack(c.party);
    LabelsAreReadBack(c.direction, c.rights);
    FlagIsReadBack(c.delegable);
    NumberIsReadBack(c.expiresAt);
    ClaimsInFields(c);
    SevenFields(domain, HexChars(c.channel), HexChars(c.party), DirectionChars(c.direction), RightsChars(c.rights),
                FlagChars(c.delegable), Chars(Hex.Decimal(c.expiresAt)));
  }

  /** `ct-grant:v1` and `ct-chan-invite:v1`. */
  const GRANT: Bytes := [99, 116, 45, 103, 114, 97, 110, 116, 58, 118, 49]
  const INVITATION: Bytes := [99, 116, 45, 99, 104, 97, 110, 45, 105, 110, 118, 105, 116, 101, 58, 118, 49]

  lemma DomainsAre()
    ensures Chars("ct-grant:v1|") == GRANT + [124] && NoBar(GRANT)
    ensures Chars("ct-chan-invite:v1|") == INVITATION + [124] && NoBar(INVITATION)
  {
  }

  lemma ReadBehind(text: Bytes, domain: Bytes, c: Claims)
    requires NoBar(domain) && text == (domain + [124]) + ClaimsLayout(c)
    ensures ReadClaims(domain, text) == Some(c)
  {
    Assoc(domain, [124], ClaimsLayout(c));
    ClaimsAreReadBack(domain, c);
  }

  /** What a grant or an invitation signs is read back as exactly its claims, under its own domain. */
  lemma GrantIsReadBack(c: Claims)
    ensures ReadClaims(GRANT, SigningBytes(ChannelGrant(c))) == Some(c)
  {
    GrantLayout(c);
    DomainsAre();
    ReadBehind(SigningBytes(ChannelGrant(c)), GRANT, c);
  }

  lemma InvitationIsReadBack(c: Claims)
    ensures ReadClaims(INVITATION, SigningBytes(ChannelInvitation(c))) == Some(c)
  {
    InvitationLayout(c);
    DomainsAre();
    ReadBehind(SigningBytes(ChannelInvitation(c)), INVITATION, c);
  }
}
