/** The client's reading of the edge's admission answers: the grammar of the `OK` line, the
    length-framed refusal category, and the byte-wise ack reader in front of both. */
module ChannelWire {
  import opened Wrappers
  import opened Bytes
  import opened Hex

  const CHANNEL_ACK_MAX_BYTES: nat := 512
  const POSSESSION_CHALLENGE_LEN: nat := 32
  const REFUSAL_CATEGORY_MAX_LEN: nat := 24

  /** `A` stands for socket addresses. */
  datatype Outcome<A> =
    | Admitted(peerEndpoint: string, peerNoiseKey: Option<Key>, peerHolder: Option<Key>,
               peerAttestation: Option<Signature>, observedReflexive: Option<A>)
    | Refused(category: Option<Bytes>)
    | ParkExpired

  // ---- Words of a line ----

  /** Unicode's White_Space property, which `trim` and `split_whitespace` go by. */
  predicate IsSpace(c: char) {
    || '\U{9}' <= c <= '\U{D}' || c == ' ' || c == '\U{85}' || c == '\U{A0}' || c == '\U{1680}'
    || '\U{2000}' <= c <= '\U{200A}' || c == '\U{2028}' || c == '\U{2029}' || c == '\U{202F}'
    || c == '\U{205F}' || c == '\U{3000}'
  }

  predicate AllSpace(s: string) {
    forall c | c in s :: IsSpace(c)
  }

  predicate IsWord(s: string) {
    s != "" && forall c | c in s :: !IsSpace(c)
  }

  /** Length of the run of non-space characters at the front. */
  function WordLength(s: string): (n: nat)
    ensures n <= |s|
  {
    if s == "" || IsSpace(s[0]) then 0 else 1 + WordLength(s[1..])
  }

  function Words(s: string): seq<string>
    decreases |s|
  {
    if s == "" then []
    else if IsSpace(s[0]) then Words(s[1..])
    else [s[..WordLength(s)]] + Words(s[WordLength(s)..])
  }

  function TrimEnd(s: string): string {
    if s == "" || !IsSpace(s[|s| - 1]) then s else TrimEnd(s[..|s| - 1])
  }

  function Trim(s: string): string {
    if s == "" || !IsSpace(s[0]) then TrimEnd(s) else Trim(s[1..])
  }

  /** Words with a gap of white space before each, and white space at the end. */
  function Spread(gaps: seq<string>, words: seq<string>, end: string): string
    requires |gaps| == |words|
  {
    if words == [] then end else gaps[0] + words[0] + Spread(gaps[1..], words[1..], end)
  }

  ghost predicate Separates(gaps: seq<string>, words: seq<string>, end: string) {
    && |gaps| == |words| && AllSpace(end)
    && (forall g | g in gaps :: g != "" && AllSpace(g))
    && (forall w | w in words :: IsWord(w))
  }

  lemma {:induction false} SkipSpace(gap: string, rest: string)
    requires AllSpace(gap)
    ensures Words(gap + rest) == Words(rest)
  {
    if gap == "" {
      assert gap + rest == rest;
    } else {
      assert gap[0] in gap && (gap + rest)[1..] == gap[1..] + rest;
      SkipSpace(gap[1..], rest);
    }
  }

  lemma {:induction false} WordLengthOf(word: string, rest: string)
    requires (forall c | c in word :: !IsSpace(c)) && (rest == "" || IsSpace(rest[0]))
    ensures WordLength(word + rest) == |word|
  {
    if word == "" {
      assert word + rest == rest;
    } else {
      assert word[0] in word && (word + rest)[1..] == word[1..] + rest;
      WordLengthOf(word[1..], rest);
    }
  }

  lemma FirstWord(word: string, rest: string)
    requires IsWord(word) && (rest == "" || IsSpace(rest[0]))
    ensures Words(word + rest) == [word] + Words(rest)
  {
    WordLengthOf(word, rest);
    assert word[0] in word;
    assert (word + rest)[..|word|] == word && (word + rest)[|word|..] == rest;
  }

  /** Splitting finds the words whatever white space lies between them. */
  lemma {:induction false} WordsOfSpread(gaps: seq<string>, words: seq<string>, end: string)
    requires Separates(gaps, words, end)
    ensures Words(Spread(gaps, words, end)) == words
  {
    if words == [] {
      SkipSpace(end, "");
      assert end + "" == end;
    } else {
      var rest := Spread(gaps[1..], words[1..], end);
      WordsOfSpread(gaps[1..], words[1..], end);
      assert gaps[0] in gaps && words[0] in words;
      SpreadStartsWithSpace(gaps[1..], words[1..], end);
      FirstWord(words[0], rest);
      SkipSpace(gaps[0], words[0] + rest);
      assert gaps[0] + (words[0] + rest) == gaps[0] + words[0] + rest;
    }
  }

  lemma SpreadStartsWithSpace(gaps: seq<string>, words: seq<string>, end: string)
    requires Separates(gaps, words, end)
    ensures Spread(gaps, words, end) == "" || IsSpace(Spread(gaps, words, end)[0])
  {
    if words == [] {
      assert end != "" ==> end[0] in end;
    } else {
      assert gaps[0] in gaps && gaps[0][0] in gaps[0];
    }
  }

  lemma {:induction false} TrimEndKeepsTheStart(s: string)
    requires s != "" && !IsSpace(s[0])
    ensures TrimEnd(s) != "" && TrimEnd(s)[0] == s[0]
  {
    if IsSpace(s[|s| - 1]) {
      TrimEndKeepsTheStart(s[..|s| - 1]);
    }
  }

  // ---- The OK line ----

  predicate IsReflexive(word: string) {
    "r=" <= word
  }

  /** The positional fields: words without an equals sign. */
  function Bare(words: seq<string>): seq<string> {
    if words == [] then []
    else if '=' in words[|words| - 1] then Bare(words[..|words| - 1])
    else Bare(words[..|words| - 1]) + [words[|words| - 1]]
  }

  /** The address of the last `r=` word. */
  function Reflexive<A>(words: seq<string>, parseAddr: string -> Option<A>): Option<A> {
    if words == [] then None
    else if IsReflexive(words[|words| - 1]) then parseAddr(words[|words| - 1][2..])
    else Reflexive(words[..|words| - 1], parseAddr)
  }

  function HexField(fields: seq<string>, i: nat, bytes: nat): (r: Option<Bytes>)
    ensures r.Some? ==> |r.value| == bytes
  {
    if i < |fields| then DecodeArray(bytes, fields[i]) else None
  }

  /** What an ack line means. */
  function Meaning<A>(ack: string, parseAddr: string -> Option<A>): Outcome<A> {
    if Trim(ack) == "EX" then ParkExpired
    else if !("OK" <= ack) then Refused(None)
    else
      var words := Words(ack[2..]);
      var fields := Bare(words);
      Admitted(if fields == [] then "" else fields[0], HexField(fields, 1, 32), HexField(fields, 2, 32),
               HexField(fields, 3, 64), Reflexive(words, parseAddr))
  }

  method ParseChannelAck<A>(ack: string, parseAddr: string -> Option<A>) returns (r: Outcome<A>)
    ensures r == Meaning(ack, parseAddr)
  {
    if Trim(ack) == "EX" {
      return ParkExpired;
    }
    if !("OK" <= ack) {
      return Refused(None);
    }
    var words := Words(ack[2..]);
    var observedReflexive: Option<A>, fields: seq<string> := None, [];
    for i := 0 to |words|
      invariant fields == Bare(words[..i]) && observedReflexive == Reflexive(words[..i], parseAddr)
    {
      var word := words[i];
      assert words[..i + 1][..i] == words[..i];
      if IsReflexive(word) {
        assert word[1] in word;
        observedReflexive := parseAddr(word[2..]);
      } else if '=' in word {
      } else {
        fields := fields + [word];
      }
    }
    assert words[..|words|] == words;
    r := Admitted(if fields == [] then "" else fields[0], HexField(fields, 1, 32), HexField(fields, 2, 32),
                  HexField(fields, 3, 64), observedReflexive);
  }

  /** The peer's attested key as the edge prints it. */
  datatype Triple = Triple(noise: Key, holder: Key, attestation: Signature)

  function Printed(triple: Option<Triple>): seq<string> {
    match triple
    case None => []
    case Some(t) => [HexOf(t.noise), HexOf(t.holder), HexOf(t.attestation)]
  }

  /** The words of a line that hold no equals sign, in the line's order. */
  function Untagged(words: seq<string>): seq<string> {
    if words == [] then []
    else (if exists i :: 0 <= i < |words[0]| && words[0][i] == '=' then [] else [words[0]]) + Untagged(words[1..])
  }

  lemma {:induction false} UntaggedSplits(before: seq<string>, after: seq<string>)
    ensures Untagged(before + after) == Untagged(before) + Untagged(after)
  {
    if before == [] {
      assert before + after == after;
    } else {
      UntaggedSplits(before[1..], after);
      assert (before + after)[1..] == before[1..] + after;
      Assoc(if exists i :: 0 <= i < |before[0]| && before[0][i] == '=' then [] else [before[0]],
            Untagged(before[1..]), Untagged(after));
    }
  }

  lemma {:induction false} BareIsUntagged(words: seq<string>)
    ensures Bare(words) == Untagged(words)
  {
    if words != [] {
      var head, last := words[..|words| - 1], words[|words| - 1];
      BareIsUntagged(head);
      UntaggedSplits(head, [last]);
      assert words == head + [last] && [last][1..] == [];
    }
  }

  /** An `OK` line: the endpoint and perhaps the triple in this order, and tagged words anywhere. */
  ghost predicate IsOkLine(ack: string, words: seq<string>, endpoint: string, triple: Option<Triple>) {
    && Untagged(words) == [endpoint] + Printed(triple)
    && exists gaps, end :: Separates(gaps, words, end) && ack == "OK" + Spread(gaps, words, end)
  }

  lemma OkIsNotExpiry(ack: string)
    requires "OK" <= ack
    ensures Trim(ack) != "EX"
  {
    TrimEndKeepsTheStart(ack);
  }

  lemma PrintedKeyDecodes(bytes: Bytes)
    ensures DecodeArray(|bytes|, HexOf(bytes)) == Some(bytes)
  {
    DecodeOfHex(bytes);
  }

  lemma PrintedFields(fields: seq<string>, endpoint: string, triple: Option<Triple>)
    requires fields == [endpoint] + Printed(triple)
    ensures match triple
            case None => HexField(fields, 1, 32).None? && HexField(fields, 2, 32).None? && HexField(fields, 3, 64).None?
            case Some(t) => HexField(fields, 1, 32) == Some(t.noise) && HexField(fields, 2, 32) == Some(t.holder)
                            && HexField(fields, 3, 64) == Some(t.attestation)
  {
    if triple.Some? {
      PrintedKeyDecodes(triple.value.noise);
      PrintedKeyDecodes(triple.value.holder);
      PrintedKeyDecodes(triple.value.attestation);
    }
  }

  /** For every such line, whatever its white space and unknown tags, the parser recovers the printed
      endpoint and triple, and the address of the last `r=` word. */
  lemma OkLineIsRecovered<A>(ack: string, words: seq<string>, endpoint: string, triple: Option<Triple>,
                             parseAddr: string -> Option<A>)
    requires IsOkLine(ack, words, endpoint, triple)
    ensures var r := Meaning(ack, parseAddr);
            && r.Admitted? && r.peerEndpoint == endpoint && r.observedReflexive == Reflexive(words, parseAddr)
            && match triple
               case None => r.peerNoiseKey.None? && r.peerHolder.None? && r.peerAttestation.None?
               case Some(t) => r.peerNoiseKey == Some(t.noise) && r.peerHolder == Some(t.holder)
                               && r.peerAttestation == Some(t.attestation)
  {
    OkIsNotExpiry(ack);
    var gaps, end :| Separates(gaps, words, end) && ack == "OK" + Spread(gaps, words, end);
    WordsOfSpread(gaps, words, end);
    assert ack[2..] == Spread(gaps, words, end);
    BareIsUntagged(words);
    PrintedFields(Bare(words), endpoint, triple);
  }

  /** Tagged words that are not `r=` can be put in or taken out anywhere without effect. */
  lemma {:induction false} UnknownTagIsIgnored<A>(before: seq<string>, tag: string, after: seq<string>, parseAddr: string -> Option<A>)
    requires '=' in tag && !IsReflexive(tag)
    ensures Bare(before + [tag] + after) == Bare(before + after)
    ensures Reflexive(before + [tag] + after, parseAddr) == Reflexive(before + after, parseAddr)
    decreases |after|
  {
    if after == [] {
      assert (before + [tag] + after)[..|before|] == before && before + after == before;
    } else {
      var n := |after| - 1;
      UnknownTagIsIgnored(before, tag, after[..n], parseAddr);
      assert (before + [tag] + after)[..|before| + 1 + n] == before + [tag] + after[..n];
      assert (before + after)[..|before| + n] == before + after[..n];
    }
  }

  lemma ReflexiveIff(word: string)
    ensures IsReflexive(word) <==> |word| >= 2 && word[0] == 'r' && word[1] == '='
  {
  }

  /** The last word that starts with `r=`, wherever it stands, gives the address. */
  lemma {:induction false} TheReflexiveWordIsFound<A>(words: seq<string>, i: nat, addr: string, parseAddr: string -> Option<A>)
    requires i < |words| && words[i] == ['r', '='] + addr
    requires forall j | i < j < |words| :: !(|words[j]| >= 2 && words[j][0] == 'r' && words[j][1] == '=')
    ensures Reflexive(words, parseAddr) == parseAddr(addr)
  {
    if i < |words| - 1 {
      var last := words[|words| - 1];
      ReflexiveIff(last);
      TheReflexiveWordIsFound(words[..|words| - 1], i, addr, parseAddr);
    } else {
      ReflexiveIff(words[i]);
      assert words[i][2..] == addr;
    }
  }

  /** Without such a word there is no address. */
  lemma {:induction false} NoReflexiveWord<A>(words: seq<string>, parseAddr: string -> Option<A>)
    requires forall j | 0 <= j < |words| :: !(|words[j]| >= 2 && words[j][0] == 'r' && words[j][1] == '=')
    ensures Reflexive(words, parseAddr).None?
  {
    if words != [] {
      var last := words[|words| - 1];
      ReflexiveIff(last);
      NoReflexiveWord(words[..|words| - 1], parseAddr);
    }
  }

  // ---- Lines that are not OK ----

  /** The white space characters, by code. */
  lemma SpacesAre(c: char)
    ensures IsSpace(c) <==>
              var n := c as int;
              || 9 <= n <= 13 || n == 32 || n == 133 || n == 160 || n == 5760 || 8192 <= n <= 8202
              || n == 8232 || n == 8233 || n == 8239 || n == 8287 || n == 12288
  {
  }

  lemma {:induction false} TrimEndSplits(s: string) returns (end: string)
    ensures AllSpace(end) && s == TrimEnd(s) + end
    ensures TrimEnd(s) != "" ==> !IsSpace(TrimEnd(s)[|TrimEnd(s)| - 1])
  {
    end := "";
    if s != "" && IsSpace(s[|s| - 1]) {
      var shorter := TrimEndSplits(s[..|s| - 1]);
      end := shorter + [s[|s| - 1]];
    }
  }

  /** Trimming takes white space off both ends, and all of it. */
  lemma {:induction false} TrimSplits(s: string) returns (start: string, end: string)
    ensures AllSpace(start) && AllSpace(end) && s == start + Trim(s) + end
  {
    if s == "" || !IsSpace(s[0]) {
      start := "";
      end := TrimEndSplits(s);
    } else {
      var longer: string;
      longer, end := TrimSplits(s[1..]);
      start := [s[0]] + longer;
      assert s == [s[0]] + (longer + Trim(s[1..]) + end);
    }
  }

  lemma {:induction false} TrimEndDrops(word: string, end: string)
    requires AllSpace(end) && word != "" && !IsSpace(word[|word| - 1])
    ensures TrimEnd(word + end) == word
  {
    if end == "" {
      assert word + end == word;
    } else {
      var n := |end| - 1;
      assert end[n] in end && (word + end)[..|word + end| - 1] == word + end[..n];
      TrimEndDrops(word, end[..n]);
    }
  }

  lemma {:induction false} TrimDrops(start: string, word: string, end: string)
    requires AllSpace(start) && AllSpace(end) && word != "" && !IsSpace(word[0]) && !IsSpace(word[|word| - 1])
    ensures Trim(start + (word + end)) == word
  {
    if start == "" {
      assert start + (word + end) == word + end;
      TrimEndDrops(word, end);
    } else {
      assert start[0] in start && (start + (word + end))[1..] == start[1..] + (word + end);
      TrimDrops(start[1..], word, end);
    }
  }

  /** The bare token `EX`, with white space around it at most. */
  ghost predicate IsExpiry(ack: string) {
    exists start, end :: AllSpace(start) && AllSpace(end) && ack == start + (['E', 'X'] + end)
  }

  lemma ExpiryIff(ack: string)
    ensures Trim(ack) == "EX" <==> IsExpiry(ack)
  {
    assert ['E', 'X'] == "EX";
    if Trim(ack) == "EX" {
      var start, end := TrimSplits(ack);
      Assoc(start, ['E', 'X'], end);
    }
    if IsExpiry(ack) {
      var start, end :| AllSpace(start) && AllSpace(end) && ack == start + (['E', 'X'] + end);
      TrimDrops(start, ['E', 'X'], end);
    }
  }

  /** A line is an expiry exactly when it is the token `EX`, an admission exactly when it starts with `OK`, and
      else a refusal without a category. */
  lemma EveryLineIsClassified<A>(ack: string, parseAddr: string -> Option<A>)
    ensures Meaning(ack, parseAddr).ParkExpired? <==> IsExpiry(ack)
    ensures Meaning(ack, parseAddr).Admitted? <==> |ack| >= 2 && ack[0] == 'O' && ack[1] == 'K'
    ensures Meaning(ack, parseAddr).Refused? ==> Meaning(ack, parseAddr) == Refused(None)
  {
    ExpiryIff(ack);
    assert "OK" <= ack <==> |ack| >= 2 && ack[0] == 'O' && ack[1] == 'K';
    if "OK" <= ack {
      OkIsNotExpiry(ack);
    }
  }
}
