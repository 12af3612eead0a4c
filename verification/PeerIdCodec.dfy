/** How an offer publishes its peer id: the text becomes bytes32 chunks in hex, a flag is
    shifted in front across all chunks, and the contract pads every chunk to 32 bytes; the
    MessageEmitted handler splits off the flag and decodes the rest. Hex strings are
    sequences of digit values, without the 0x in front. */
module PeerIdCodec {

  type Digit = d: nat | d < 16

  type Hex = seq<Digit>

  type Ascii = c: char | c < 128 as char

  const CHUNK := 64
  const PEER_ID_FLAG: Hex := [0, 1]
  const NUL: char := 0 as char

  // ----- Encoding -----

  function Digits(c: Ascii): (h: Hex)
    ensures |h| == 2 && CharOf(h[0], h[1]) == c
  {
    var high: Digit, low: Digit := c as int / 16, c as int % 16;
    [high, low]
  }

  function AsciiToHex(s: seq<Ascii>): (h: Hex)
    ensures |h| == 2 * |s|
  {
    if s == [] then [] else Digits(s[0]) + AsciiToHex(s[1..])
  }

  function Zeros(n: nat): (h: Hex)
    ensures |h| == n
  {
    seq(n, _ => 0)
  }

  function PadRight(h: Hex): (p: Hex)
    ensures |p| == if |h| <= CHUNK then CHUNK else |h|
  {
    if |h| <= CHUNK then h + Zeros(CHUNK - |h|) else h
  }

  function EncodeHash(s: seq<Ascii>): seq<Hex> {
    if |s| <= 32 then [PadRight(AsciiToHex(s))] else [AsciiToHex(s[..32])] + EncodeHash(s[32..])
  }

  function Take(h: Hex, n: nat): Hex {
    if n <= |h| then h[..n] else h
  }

  function Drop(h: Hex, n: nat): Hex {
    if n <= |h| then h[n..] else []
  }

  /** The chunks shifted to the right by the carry; what is left over goes to the end. */
  function Shifted(chunks: seq<Hex>, carry: Hex, ending: nat): seq<Hex> {
    if chunks == [] then (if carry == [] then [] else [carry])
    else [carry + Take(chunks[0], ending)] + Shifted(chunks[1..], Drop(chunks[0], ending), ending)
  }

  function Join(chunks: seq<Hex>): Hex {
    if chunks == [] then [] else chunks[0] + Join(chunks[1..])
  }

  lemma Regroup<T>(a: seq<T>, b: seq<T>, c: seq<T>, d: seq<T>)
    ensures (a + b) + (c + d) == a + ((b + c) + d)
  {
  }

  lemma Associate<T>(a: seq<T>, b: seq<T>, c: seq<T>)
    ensures (a + b) + c == a + (b + c)
  {
  }

  lemma TakeDrop(h: Hex, n: nat)
    ensures Take(h, n) + Drop(h, n) == h
  {
  }

  lemma JoinCons(chunk: Hex, chunks: seq<Hex>)
    ensures Join([chunk] + chunks) == chunk + Join(chunks)
  {
  }

  /** Shifting keeps the concatenation. */
  lemma {:induction false} ShiftedJoin(chunks: seq<Hex>, carry: Hex, ending: nat)
    ensures Join(Shifted(chunks, carry, ending)) == carry + Join(chunks)
  {
    if chunks == [] {
      if carry != [] {
        assert Shifted(chunks, carry, ending)[1..] == [];
      }
    } else {
      var head, left := Take(chunks[0], ending), Drop(chunks[0], ending);
      JoinCons(carry + head, Shifted(chunks[1..], left, ending));
      ShiftedJoin(chunks[1..], left, ending);
      Regroup(carry, head, left, Join(chunks[1..]));
      TakeDrop(chunks[0], ending);
    }
  }

  /** The first chunks are done, and the rest is shifted by the carry. */
  ghost predicate ShiftedSoFar(
    was: seq<Hex>, done: seq<Hex>, carry: Hex, prefix: Hex, ending: nat, limit: nat)
    requires |done| <= |was|
  {
    && (forall k :: 0 <= k < |done| ==> |was[k]| <= limit)
    && done + Shifted(was[|done|..], carry, ending) == Shifted(was, prefix, ending)
  }

  lemma ShiftOneMore(was: seq<Hex>, done: seq<Hex>, carry: Hex, prefix: Hex, ending: nat, limit: nat)
    requires |done| < |was| && |was[|done|]| <= limit && ShiftedSoFar(was, done, carry, prefix, ending, limit)
    ensures var chunk := was[|done|];
            ShiftedSoFar(was, done + [carry + Take(chunk, ending)], Drop(chunk, ending), prefix, ending, limit)
  {
    var i, chunk := |done|, was[|done|];
    assert was[i..][0] == chunk && was[i..][1..] == was[i + 1..];
    Associate(done, [carry + Take(chunk, ending)], Shifted(was[i + 1..], Drop(chunk, ending), ending));
  }

  /** Prefixes the chunks in place; `pushed` is what is appended behind the last one. It
      throws on a prefix that fills a chunk and on a chunk that is too long. */
  method PrefixArray(arr: array<Hex>, prefix: Hex, lengthPerElement: nat) returns (thrown: bool, pushed: seq<Hex>)
    modifies arr
    ensures thrown <==> |prefix| >= lengthPerElement
                        || exists i :: 0 <= i < arr.Length && |old(arr[i])| > lengthPerElement
    ensures !thrown ==> arr[..] + pushed == Shifted(old(arr[..]), prefix, lengthPerElement - |prefix|)
    ensures !thrown ==> Join(arr[..] + pushed) == prefix + Join(old(arr[..]))
  {
    pushed := [];
    if |prefix| >= lengthPerElement {
      return true, [];
    }
    var endingLength := lengthPerElement - |prefix|;
    var carryOver := prefix;
    ghost var was := arr[..];
    assert was[0..] == was;
    assert arr[..0] + Shifted(was, carryOver, endingLength) == Shifted(was, carryOver, endingLength);
    var i := 0;
    while i < arr.Length
      invariant 0 <= i <= arr.Length
      invariant forall k :: i <= k < arr.Length ==> arr[k] == was[k]
      invariant ShiftedSoFar(was, arr[..i], carryOver, prefix, endingLength, lengthPerElement)
    {
      if |arr[i]| > lengthPerElement {
        assert |old(arr[i])| > lengthPerElement;
        return true, [];
      }
      ShiftOneMore(was, arr[..i], carryOver, prefix, endingLength, lengthPerElement);
      var tmp := carryOver + Take(arr[i], endingLength);
      carryOver := Drop(arr[i], endingLength);
      ghost var done := arr[..i];
      arr[i] := tmp;
      assert arr[..i + 1] == done + [tmp];
      i := i + 1;
    }
    if carryOver != [] {
      pushed := [carryOver];
    }
    assert arr[..i] == arr[..];
    ShiftedJoin(was, prefix, endingLength);
    thrown := false;
  }

  /** The contract's bytes32 elements are padded on the right. */
  function OnChain(chunks: seq<Hex>): seq<Hex> {
    seq(|chunks|, i requires 0 <= i < |chunks| => PadRight(chunks[i]))
  }

  function Published(id: seq<Ascii>): seq<Hex> {
    OnChain(Shifted(EncodeHash(id), PEER_ID_FLAG, CHUNK - |PEER_ID_FLAG|))
  }

  // ----- Decoding -----

  function CharOf(high: Digit, low: Digit): char {
    (16 * high + low) as char
  }

  function HexToAscii(h: Hex): seq<char> {
    if h == [] then []
    else if |h| == 1 then [h[0] as char]
    else [CharOf(h[0], h[1])] + HexToAscii(h[2..])
  }

  /** Whitespace below code 256, as `trim` knows it. */
  predicate IsSpace(c: char) {
    9 as char <= c <= 13 as char || c == ' ' || c == 160 as char
  }

  function TrimLeft(s: seq<char>): seq<char> {
    if s != [] && IsSpace(s[0]) then TrimLeft(s[1..]) else s
  }

  function TrimRight(s: seq<char>): seq<char> {
    if s != [] && IsSpace(s[|s| - 1]) then TrimRight(s[..|s| - 1]) else s
  }

  function RemoveNuls(s: seq<char>): (t: seq<char>)
    ensures NUL !in t
    ensures |t| <= |s|
  {
    if s == [] then [] else if s[0] == NUL then RemoveNuls(s[1..]) else [s[0]] + RemoveNuls(s[1..])
  }

  function Text(chunks: seq<Hex>): seq<char> {
    if chunks == [] then [] else HexToAscii(chunks[0]) + Text(chunks[1..])
  }

  function DecodeByteArray(chunks: seq<Hex>): seq<char> {
    RemoveNuls(TrimRight(TrimLeft(Text(chunks))))
  }

  datatype Received = NoMessage | PeerId(id: seq<char>) | UnknownFlag(flag: Hex)

  function MessageEmitted(message: seq<Hex>): Received {
    if message == [] then NoMessage else
      var flag := Take(message[0], 2);
      if flag == PEER_ID_FLAG then PeerId(DecodeByteArray([Drop(message[0], 2)] + message[1..]))
      else UnknownFlag(flag)
  }

  // ----- The round trip -----

  lemma {:induction false} HexToAsciiConcat(g: Hex, h: Hex)
    requires |g| % 2 == 0
    ensures HexToAscii(g + h) == HexToAscii(g) + HexToAscii(h)
  {
    if g == [] {
      assert g + h == h;
    } else {
      HexToAsciiConcat(g[2..], h);
      assert (g + h)[0] == g[0] && (g + h)[1] == g[1] && (g + h)[2..] == g[2..] + h;
      Associate([CharOf(g[0], g[1])], HexToAscii(g[2..]), HexToAscii(h));
    }
  }

  lemma {:induction false} TextOfEvenChunks(chunks: seq<Hex>)
    requires forall i :: 0 <= i < |chunks| ==> |chunks[i]| % 2 == 0
    ensures Text(chunks) == HexToAscii(Join(chunks))
  {
    if chunks != [] {
      TextOfEvenChunks(chunks[1..]);
      HexToAsciiConcat(chunks[0], Join(chunks[1..]));
    }
  }

  lemma {:induction false} AsciiRoundTrip(s: seq<Ascii>)
    ensures HexToAscii(AsciiToHex(s)) == s
  {
    if s != [] {
      AsciiRoundTrip(s[1..]);
      assert AsciiToHex(s)[2..] == AsciiToHex(s[1..]);
    }
  }

  function Nuls(n: nat): seq<char> {
    seq(n, _ => NUL)
  }

  lemma {:induction false} TextOfZeros(n: nat)
    ensures HexToAscii(Zeros(2 * n)) == Nuls(n)
  {
    if n > 0 {
      TextOfZeros(n - 1);
      assert Zeros(2 * n)[2..] == Zeros(2 * (n - 1));
      assert Nuls(n) == [NUL] + Nuls(n - 1);
    }
  }

  lemma {:induction false} AsciiToHexConcat(s: seq<Ascii>, t: seq<Ascii>)
    ensures AsciiToHex(s + t) == AsciiToHex(s) + AsciiToHex(t)
  {
    if s == [] {
      assert s + t == t;
    } else {
      AsciiToHexConcat(s[1..], t);
      assert (s + t)[0] == s[0] && (s + t)[1..] == s[1..] + t;
      Associate(Digits(s[0]), AsciiToHex(s[1..]), AsciiToHex(t));
    }
  }

  /** Every chunk is full, and together they are the text in hex, padded with zeros. */
  lemma {:induction false} EncodedChunks(s: seq<Ascii>) returns (zeros: nat)
    ensures forall i :: 0 <= i < |EncodeHash(s)| ==> |EncodeHash(s)[i]| == CHUNK
    ensures Join(EncodeHash(s)) == AsciiToHex(s) + Zeros(2 * zeros)
  {
    if |s| <= 32 {
      zeros := 32 - |s|;
      assert EncodeHash(s)[1..] == [];
    } else {
      zeros := EncodedChunks(s[32..]);
      assert EncodeHash(s)[1..] == EncodeHash(s[32..]);
      AsciiToHexConcat(s[..32], s[32..]);
      assert s[..32] + s[32..] == s;
    }
  }

  /** Shifting full chunks gives full chunks and a last one as long as the carry. */
  lemma {:induction false} ShiftedSizes(chunks: seq<Hex>, carry: Hex, ending: nat)
    requires carry != [] && |carry| + ending == CHUNK
    requires forall i :: 0 <= i < |chunks| ==> |chunks[i]| == CHUNK
    ensures var shifted := Shifted(chunks, carry, ending);
            && |shifted| == |chunks| + 1
            && |shifted[|chunks|]| == |carry|
            && forall i :: 0 <= i < |chunks| ==> |shifted[i]| == CHUNK
  {
    if chunks != [] {
      ShiftedSizes(chunks[1..], Drop(chunks[0], ending), ending);
    }
  }

  lemma {:induction false} OnChainJoin(chunks: seq<Hex>)
    requires chunks != [] && |chunks[|chunks| - 1]| <= CHUNK
    requires forall i :: 0 <= i < |chunks| - 1 ==> |chunks[i]| == CHUNK
    ensures Join(OnChain(chunks)) == Join(chunks) + Zeros(CHUNK - |chunks[|chunks| - 1]|)
  {
    var padded := OnChain(chunks);
    if |chunks| == 1 {
      assert padded[1..] == [] && chunks[1..] == [];
    } else {
      OnChainJoin(chunks[1..]);
      assert padded[1..] == OnChain(chunks[1..]);
      assert padded[0] == chunks[0];
    }
  }

  /** Dropping from the first chunk is dropping from the concatenation. */
  lemma JoinWithoutFlag(message: seq<Hex>, flag: Hex, tail: Hex)
    requires message != [] && |message[0]| >= |flag| && Join(message) == flag + tail
    ensures Take(message[0], |flag|) == flag
    ensures Join([Drop(message[0], |flag|)] + message[1..]) == tail
  {
    var n := |flag|;
    JoinCons(Drop(message[0], n), message[1..]);
    assert message == [message[0]] + message[1..];
    JoinCons(message[0], message[1..]);
    assert Join(message)[..n] == message[0][..n];
    assert Join(message)[n..] == message[0][n..] + Join(message[1..]);
  }

  lemma ShiftedEncoding(id: seq<Ascii>) returns (zeros: nat)
    ensures var shifted := Shifted(EncodeHash(id), PEER_ID_FLAG, CHUNK - 2);
            && shifted != [] && |shifted[|shifted| - 1]| == 2
            && (forall i :: 0 <= i < |shifted| - 1 ==> |shifted[i]| == CHUNK)
            && Join(shifted) == PEER_ID_FLAG + (AsciiToHex(id) + Zeros(2 * zeros))
  {
    zeros := EncodedChunks(id);
    ShiftedSizes(EncodeHash(id), PEER_ID_FLAG, CHUNK - 2);
    ShiftedJoin(EncodeHash(id), PEER_ID_FLAG, CHUNK - 2);
  }

  lemma MoreZeros(flag: Hex, text: Hex, m: nat, n: nat)
    ensures (flag + (text + Zeros(m))) + Zeros(n) == flag + (text + Zeros(m + n))
  {
  }

  /** What the contract stores of full chunks and a last one with two digits. */
  lemma StoredJoin(chunks: seq<Hex>, text: Hex, zeros: nat)
    requires chunks != [] && |chunks[|chunks| - 1]| == 2
    requires forall i :: 0 <= i < |chunks| - 1 ==> |chunks[i]| == CHUNK
    requires Join(chunks) == PEER_ID_FLAG + (text + Zeros(2 * zeros))
    ensures Join(OnChain(chunks)) == PEER_ID_FLAG + (text + Zeros(2 * (zeros + 31)))
    ensures forall i :: 0 <= i < |OnChain(chunks)| ==> |OnChain(chunks)[i]| == CHUNK
  {
    OnChainJoin(chunks);
    MoreZeros(PEER_ID_FLAG, text, 2 * zeros, 62);
  }

  /** The published message: full chunks that spell flag, id and zeros. */
  lemma PublishedJoin(id: seq<Ascii>) returns (nuls: nat)
    ensures var message := Published(id);
            && message != []
            && (forall i :: 0 <= i < |message| ==> |message[i]| == CHUNK)
            && Join(message) == PEER_ID_FLAG + (AsciiToHex(id) + Zeros(2 * nuls))
            && nuls > 0
  {
    var zeros := ShiftedEncoding(id);
    StoredJoin(Shifted(EncodeHash(id), PEER_ID_FLAG, CHUNK - 2), AsciiToHex(id), zeros);
    nuls := zeros + 31;
  }

  /** Behind the flag, the received text is the id followed by NULs, at least one. */
  lemma ReceivedText(id: seq<Ascii>) returns (nuls: nat)
    ensures var message := Published(id);
            && message != [] && Take(message[0], 2) == PEER_ID_FLAG
            && Text([Drop(message[0], 2)] + message[1..]) == id + Nuls(nuls)
            && nuls > 0
  {
    nuls := PublishedJoin(id);
    var message, text := Published(id), AsciiToHex(id);
    JoinWithoutFlag(message, PEER_ID_FLAG, text + Zeros(2 * nuls));
    TextOfEvenChunks([Drop(message[0], 2)] + message[1..]);
    HexToAsciiConcat(text, Zeros(2 * nuls));
    AsciiRoundTrip(id);
    TextOfZeros(nuls);
  }

  lemma {:induction false} TrimBeforeNuls(s: seq<char>, n: nat)
    requires n > 0
    ensures TrimLeft(s + Nuls(n)) == TrimLeft(s) + Nuls(n)
    ensures TrimRight(TrimLeft(s) + Nuls(n)) == TrimLeft(s) + Nuls(n)
  {
    if s == [] {
      assert s + Nuls(n) == Nuls(n);
    } else if IsSpace(s[0]) {
      TrimBeforeNuls(s[1..], n);
      assert (s + Nuls(n))[1..] == s[1..] + Nuls(n);
    }
  }

  lemma {:induction false} RemoveTrailingNuls(s: seq<char>, n: nat)
    ensures RemoveNuls(s + Nuls(n)) == RemoveNuls(s)
    decreases |s| + n
  {
    if s != [] {
      RemoveTrailingNuls(s[1..], n);
      assert (s + Nuls(n))[1..] == s[1..] + Nuls(n);
    } else if n > 0 {
      RemoveTrailingNuls(s, n - 1);
      assert (s + Nuls(n))[1..] == s + Nuls(n - 1);
    }
  }

  /** Whatever the id, what arrives is the id without leading whitespace and without NULs. */
  lemma PublishedArrives(id: seq<Ascii>)
    ensures MessageEmitted(Published(id)) == PeerId(RemoveNuls(TrimLeft(id)))
  {
    var nuls := ReceivedText(id);
    TrimBeforeNuls(id, nuls);
    RemoveTrailingNuls(TrimLeft(id), nuls);
  }

  lemma {:induction false} RemoveNulsKeeps(s: seq<char>)
    ensures NUL !in s ==> RemoveNuls(s) == s
  {
    if s != [] {
      RemoveNulsKeeps(s[1..]);
    }
  }

  lemma {:induction false} TrimLeftShortens(s: seq<char>)
    ensures |TrimLeft(s)| <= |s|
    ensures s != [] && IsSpace(s[0]) ==> |TrimLeft(s)| < |s|
  {
    if s != [] && IsSpace(s[0]) {
      TrimLeftShortens(s[1..]);
    }
  }

  /** The same id comes back exactly when it has no NUL and no leading whitespace; trailing
      whitespace survives behind the padding. */
  lemma PeerIdRoundTrip(id: seq<Ascii>)
    ensures MessageEmitted(Published(id)) == PeerId(id) <==> NUL !in id && (id == [] || !IsSpace(id[0]))
  {
    PublishedArrives(id);
    TrimLeftShortens(id);
    RemoveNulsKeeps(id);
  }

  // ----- In digits and characters themselves -----

  lemma {:induction false} HexOfText(s: seq<Ascii>, i: nat)
    requires i < |s|
    ensures AsciiToHex(s)[2 * i] == s[i] as int / 16 && AsciiToHex(s)[2 * i + 1] == s[i] as int % 16
  {
    if i > 0 {
      HexOfText(s[1..], i - 1);
    }
  }

  lemma {:induction false} TextOfHex(h: Hex, i: nat)
    requires |h| % 2 == 0 && 2 * i + 1 < |h|
    ensures 2 * |HexToAscii(h)| == |h|
    ensures HexToAscii(h)[i] == (16 * (h[2 * i] as int) + h[2 * i + 1] as int) as char
  {
    if |h| > 2 {
      TextOfHex(h[2..], if i > 0 then i - 1 else 0);
    }
  }

  /** What is published, digit by digit: 0, 1, then two hex digits for each character of the id,
      and zeros behind it, in chunks of 64 digits. */
  lemma PublishedInDigits(id: seq<Ascii>)
    ensures var message, digits := Published(id), Join(Published(id));
            && (forall i :: 0 <= i < |message| ==> |message[i]| == 64)
            && |digits| > 2 * |id| + 2 && digits[0] == 0 && digits[1] == 1
            && (forall i :: 0 <= i < |id| ==>
                  digits[2 + 2 * i] == id[i] as int / 16 && digits[3 + 2 * i] == id[i] as int % 16)
            && (forall i :: 2 * |id| + 2 <= i < |digits| ==> digits[i] == 0)
  {
    var nuls := PublishedJoin(id);
    forall i | 0 <= i < |id|
      ensures AsciiToHex(id)[2 * i] == id[i] as int / 16 && AsciiToHex(id)[2 * i + 1] == id[i] as int % 16
    {
      HexOfText(id, i);
    }
  }

  /** Only a message whose first two digits are 0 and 1 is a peer id; without chunks there is no
      message. */
  lemma FlagInDigits(message: seq<Hex>)
    ensures MessageEmitted(message).PeerId? <==> message != [] && |message[0]| >= 2 && message[0][..2] == [0, 1]
    ensures MessageEmitted(message) == NoMessage <==> message == []
  {
  }

  /** Trimming takes whitespace from both ends, all of it, and nothing else. */
  lemma {:induction false} TrimInCharacters(s: seq<char>) returns (i: nat, j: nat)
    ensures i <= j <= |s| && TrimRight(TrimLeft(s)) == s[i..j]
    ensures forall k :: 0 <= k < i || j <= k < |s| ==> s[k] as int in [9, 10, 11, 12, 13, 32, 160]
    ensures i < j ==> s[i] as int !in [9, 10, 11, 12, 13, 32, 160] && s[j - 1] as int !in [9, 10, 11, 12, 13, 32, 160]
  {
    i := TrimLeftInCharacters(s);
    j := TrimRightInCharacters(s[i..]);
    j := i + j;
  }

  lemma {:induction false} TrimLeftInCharacters(s: seq<char>) returns (i: nat)
    ensures i <= |s| && TrimLeft(s) == s[i..] && (i < |s| ==> !IsSpace(s[i]))
    ensures forall k :: 0 <= k < i ==> IsSpace(s[k])
  {
    i := 0;
    if s != [] && IsSpace(s[0]) {
      i := TrimLeftInCharacters(s[1..]);
      assert forall k :: 1 <= k < i + 1 ==> s[k] == s[1..][k - 1];
      i := i + 1;
    }
  }

  lemma {:induction false} TrimRightInCharacters(s: seq<char>) returns (j: nat)
    ensures j <= |s| && TrimRight(s) == s[..j] && (j > 0 ==> !IsSpace(s[j - 1]))
    ensures forall k :: j <= k < |s| ==> IsSpace(s[k])
  {
    j := |s|;
    if s != [] && IsSpace(s[|s| - 1]) {
      j := TrimRightInCharacters(s[..|s| - 1]);
    }
  }

  /** And then the NULs go: what is left are the other characters, in order. */
  lemma {:induction false} NulsInCharacters(s: seq<char>, t: seq<char>)
    ensures RemoveNuls(s + t) == RemoveNuls(s) + RemoveNuls(t)
  {
    if s == [] {
      assert s + t == t;
    } else {
      NulsInCharacters(s[1..], t);
      assert (s + t)[0] == s[0] && (s + t)[1..] == s[1..] + t;
      Associate([s[0]], RemoveNuls(s[1..]), RemoveNuls(t));
    }
  }

  lemma OneCharacter(c: char)
    ensures RemoveNuls([c]) == if c == 0 as char then [] else [c]
  {
    assert [c][1..] == [];
  }
}
