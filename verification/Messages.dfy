/** Message buffers of src/newstuff/rtask.cpp and src/newstuff/rtask.h, byte by byte. */
module Messages {
  import opened Common

  /** A C `char`; its code is taken modulo 256 where bits matter. */
  type Byte = char

  const NUL: Byte := '\0'
  const DOT: Byte := '.'

  predicate NulFree(text: seq<Byte>) {
    forall i :: 0 <= i < |text| ==> text[i] != NUL
  }

  const PREFIX: seq<Byte> := "Message from "
  const INFIX: seq<Byte> := ", iter: "

  const DIGITS: seq<Byte> := "0123456789"

  predicate AllDigits(text: seq<Byte>) {
    forall i :: 0 <= i < |text| ==> '0' <= text[i] <= '9'
  }

  /** The number that a reader takes decimal digits for. */
  function Value(digits: seq<Byte>): nat
    requires AllDigits(digits)
  {
    if digits == [] then 0
    else 10 * Value(digits[..|digits| - 1]) + (digits[|digits| - 1] as int - '0' as int)
  }

  /** The `%d` conversion of a non-negative number. */
  function Decimal(n: nat): (text: seq<Byte>)
    ensures |text| >= 1 && AllDigits(text)
  {
    if n < 10 then [DIGITS[n]] else Decimal(n / 10) + [DIGITS[n % 10]]
  }

  function Text(from: seq<Byte>, iter: nat): seq<Byte> {
    PREFIX + from + INFIX + Decimal(iter)
  }

  /** `size` bytes: the text, truncated or padded with dots, and one closing NUL. */
  function Fit(text: seq<Byte>, size: nat): (msg: seq<Byte>)
    requires size >= 1
    ensures |msg| == size
  {
    if |text| < size
    then text + seq(size - 1 - |text|, _ => DOT) + [NUL]
    else text[..size - 1] + [NUL]
  }

  /** What activation `iter` of task `from` leaves in a buffer of `size` bytes. */
  function Message(from: seq<Byte>, iter: nat, size: nat): (msg: seq<Byte>)
    requires size >= 1
    ensures |msg| == size
  {
    Fit(Text(from, iter), size)
  }

  /** The buffer contents set by the `Edge` constructor. */
  function InitialMessage(size: nat): (msg: seq<Byte>)
    requires size >= 1
    ensures |msg| == size
  {
    Fit([], size)
  }

  lemma InitialIsDots(size: nat)
    requires size >= 1
    ensures forall i :: 0 <= i < size ==> InitialMessage(size)[i] == if i < size - 1 then '.' else '\0'
  {
  }

  /** The debug assertion of the receiver: `strlen(msg) == size - 1`. */
  predicate WellFormed(msg: seq<Byte>, size: nat) {
    |msg| == size >= 1 && msg[size - 1] == NUL && NulFree(msg[..size - 1])
  }

  lemma FitIsWellFormed(text: seq<Byte>, size: nat)
    requires size >= 1 && NulFree(text)
    ensures WellFormed(Fit(text, size), size)
  {
  }

  lemma TextIsNulFree(from: seq<Byte>, iter: nat)
    requires NulFree(from)
    ensures NulFree(Text(from, iter))
  {
  }

  lemma MessageIsWellFormed(from: seq<Byte>, iter: nat, size: nat)
    requires size >= 1 && NulFree(from)
    ensures WellFormed(Message(from, iter, size), size)
  {
    TextIsNulFree(from, iter);
    FitIsWellFormed(Text(from, iter), size);
  }

  lemma DigitIsValue(d: nat)
    requires d < 10
    ensures DIGITS[d] as int == '0' as int + d
  {
  }

  /** Reading a decimal number back gives the number, and `%d` writes no needless zero in front. */
  lemma {:induction false} DecimalReadsBack(n: nat)
    ensures Value(Decimal(n)) == n && (|Decimal(n)| == 1 || Decimal(n)[0] != '0')
  {
    DigitIsValue(n % 10);
    var text := Decimal(n);
    if n < 10 {
      assert text[..|text| - 1] == [];
    } else {
      DecimalReadsBack(n / 10);
      assert text[..|text| - 1] == Decimal(n / 10);
      if n / 10 < 10 {
        DigitIsValue(n / 10);
      }
    }
  }

  /** What a message says: who sent it and in which activation, as far as the buffer has room for it, and then
      dots up to the NUL. */
  lemma MessageReads(from: seq<Byte>, iter: nat, size: nat) returns (digits: seq<Byte>)
    requires size >= 1
    ensures AllDigits(digits) && Value(digits) == iter && (|digits| == 1 || (|digits| > 1 && digits[0] != '0'))
    ensures var text, msg := "Message from " + from + ", iter: " + digits, Message(from, iter, size);
            && msg[size - 1] == '\0'
            && forall i :: 0 <= i < size - 1 ==> msg[i] == if i < |text| then text[i] else '.'
  {
    digits := Decimal(iter);
    DecimalReadsBack(iter);
  }

  /** Trailing padding does not hide where a text that ends in a digit ends. */
  lemma TextsEndTogether(x: seq<Byte>, y: seq<Byte>, size: nat)
    requires 1 <= |x| < size && 1 <= |y| < size && AllDigits(x[|x| - 1..]) && AllDigits(y[|y| - 1..])
    requires Fit(x, size) == Fit(y, size)
    ensures x == y
  {
    var msg := Fit(x, size);
    assert '0' <= x[|x| - 1..][0] <= '9' && '0' <= y[|y| - 1..][0] <= '9';
    assert msg[|x| - 1] == x[|x| - 1] && msg[|y| - 1] == y[|y| - 1];
    assert |x| == |y|;
    assert x == msg[..|x|] == y;
  }

  /** Nor does a name hide where the digits begin. */
  lemma DigitsBeginTogether(head: seq<Byte>, x: seq<Byte>, head': seq<Byte>, y: seq<Byte>)
    requires |head| >= 1 && |head'| >= 1 && head[|head| - 1] == head'[|head'| - 1] == ' '
    requires AllDigits(x) && AllDigits(y) && head + x == head' + y
    ensures head == head' && x == y
  {
    var text := head + x;
    assert text[|head| - 1] == text[|head'| - 1] == ' ';
    assert forall k :: |head| <= k < |text| ==> text[k] == x[k - |head|];
    assert forall k :: |head'| <= k < |text| ==> text[k] == y[k - |head'|];
    assert head == text[..|head|] && x == text[|head|..];
  }

  /** In buffers with room for both texts, equal messages have the same sender and the same activation. */
  lemma MessageIdentifies(from: seq<Byte>, a: nat, from': seq<Byte>, b: nat, size: nat)
    requires size > |Text(from, a)| && size > |Text(from', b)|
    requires Message(from, a, size) == Message(from', b, size)
    ensures from == from' && a == b
  {
    var head, head' := PREFIX + from + INFIX, PREFIX + from' + INFIX;
    var x, y := Decimal(a), Decimal(b);
    assert Text(from, a)[|Text(from, a)| - 1..] == x[|x| - 1..];
    assert Text(from', b)[|Text(from', b)| - 1..] == y[|y| - 1..];
    TextsEndTogether(Text(from, a), Text(from', b), size);
    DigitsBeginTogether(head, x, head', y);
    assert from == head[|PREFIX|..|head| - |INFIX|] && from' == head'[|PREFIX|..|head'| - |INFIX|];
    DecimalReadsBack(a);
    DecimalReadsBack(b);
  }

  /** A buffer large enough for both texts tells the two activations apart. */
  lemma MessageIdentifiesActivation(from: seq<Byte>, a: nat, b: nat, size: nat)
    requires size > |Text(from, a)| && size > |Text(from, b)|
    requires Message(from, a, size) == Message(from, b, size)
    ensures a == b
  {
    MessageIdentifies(from, a, from, b, size);
  }

  /** In a buffer without room for the first iteration number all messages are the same, in any larger one the
      first two differ. */
  lemma LookAlikeIff(from: seq<Byte>, size: nat)
    requires size >= 1
    ensures size <= |Text(from, 0)| ==> forall k: nat, l: nat :: Message(from, k, size) == Message(from, l, size)
    ensures size > |Text(from, 0)| ==> Message(from, 0, size) != Message(from, 1, size)
  {
    var head := PREFIX + from + INFIX;
    assert |Text(from, 0)| == |Text(from, 1)| == |head| + 1;
    if size <= |Text(from, 0)| {
      forall k: nat, l: nat ensures Message(from, k, size) == Message(from, l, size) {
        assert Text(from, k)[..size - 1] == head[..size - 1] == Text(from, l)[..size - 1];
      }
    } else if Message(from, 0, size) == Message(from, 1, size) {
      MessageIdentifiesActivation(from, 0, 1, size);
    }
  }

  const CHAR_BIT: nat := 8

  /** Bitwise exclusive or of the low `bits` bits. */
  function XorBits(a: nat, b: nat, bits: nat): (r: nat)
    ensures r < Pow2(bits)
  {
    if bits == 0 then 0
    else 2 * XorBits(a / 2, b / 2, bits - 1) + if a % 2 != b % 2 then 1 else 0
  }

  function Xor(a: Byte, b: Byte): Byte {
    assert Pow2(8) == 256 by {
      assert Pow2(4) == 16;
    }
    XorBits(a as int, b as int, CHAR_BIT) as char
  }

  /** Bit `i` of a number. */
  function Bit(x: nat, i: nat): (b: nat)
    ensures b < 2
  {
    if i == 0 then x % 2 else Bit(x / 2, i - 1)
  }

  lemma {:induction false} BitIsQuotient(x: nat, i: nat)
    ensures Bit(x, i) == x / Pow2(i) % 2
  {
    if i > 0 {
      BitIsQuotient(x / 2, i - 1);
      QuotientOfHalf(x, Pow2(i - 1));
    }
  }

  lemma QuotientOfHalf(x: nat, p: nat)
    requires p > 0
    ensures x / (2 * p) == (x / 2) / p
  {
    var q, r := (x / 2) / p, (x / 2) % p;
    assert x / 2 == q * p + r;
    var rest := 2 * r + x % 2;
    assert q * (2 * p) == 2 * (q * p);
    QuotientIs(x, 2 * p, q, rest);
  }

  lemma QuotientIs(x: nat, d: nat, q: nat, r: nat)
    requires d > 0 && x == q * d + r && r < d
    ensures x / d == q
  {
    var p := x / d;
    if p < q {
      MultiplesApart(p, q, d);
    } else if q < p {
      MultiplesApart(q, p, d);
    }
  }

  lemma XorHalves(a: nat, b: nat, bits: nat)
    requires bits > 0
    ensures XorBits(a, b, bits) / 2 == XorBits(a / 2, b / 2, bits - 1)
    ensures XorBits(a, b, bits) % 2 == (a % 2 + b % 2) % 2
  {
  }

  /** Each bit of an exclusive or is set iff it is set in exactly one operand. */
  lemma {:induction false} XorBit(a: nat, b: nat, bits: nat, i: nat)
    requires i < bits
    ensures Bit(XorBits(a, b, bits), i) == (Bit(a, i) + Bit(b, i)) % 2
  {
    XorHalves(a, b, bits);
    if i > 0 {
      XorBit(a / 2, b / 2, bits - 1, i - 1);
    }
  }

  /** The same for bytes, and the result is one. */
  lemma XorByteBit(a: Byte, b: Byte, i: nat)
    requires i < CHAR_BIT
    ensures Bit(Xor(a, b) as int, i) == (Bit(a as int, i) + Bit(b as int, i)) % 2
    ensures Xor(a, b) as int < 256
  {
    XorBit(a as int, b as int, CHAR_BIT, i);
  }

  lemma ParityAdds(p: nat, q: nat, c: nat, d: nat)
    requires p == c % 2 && q == d % 2
    ensures (p + q) % 2 == (c + d) % 2
  {
  }

  lemma CountOneMore(bs: seq<bool>, b: bool)
    ensures Count(bs + [b]) == Count(bs) + if b then 1 else 0
  {
    assert (bs + [b])[..|bs|] == bs;
  }

  /** Which bytes have bit `i` set. */
  function BitsAt(bytes: seq<Byte>, i: nat): (bits: seq<bool>)
    ensures |bits| == |bytes|
  {
    seq(|bytes|, k requires 0 <= k < |bytes| => Bit(bytes[k] as int, i) == 1)
  }

  /** How many bytes of all messages have bit `i` set. */
  function SetIn(messages: seq<seq<Byte>>, i: nat): nat {
    if messages == [] then 0
    else SetIn(messages[..|messages| - 1], i) + Count(BitsAt(messages[|messages| - 1], i))
  }

  /** The xor of all bytes of a buffer. */
  function XorAll(bytes: seq<Byte>): Byte {
    if bytes == [] then NUL else Xor(XorAll(bytes[..|bytes| - 1]), bytes[|bytes| - 1])
  }

  /** A task's checksum after reading the given messages one after the other. */
  function Checksum(received: seq<seq<Byte>>): Byte {
    if received == [] then NUL
    else Xor(Checksum(received[..|received| - 1]), XorAll(received[|received| - 1]))
  }

  lemma XorAllStep(bytes: seq<Byte>, last: Byte, i: nat)
    requires i < CHAR_BIT
    ensures Bit(XorAll(bytes + [last]) as int, i) == (Bit(XorAll(bytes) as int, i) + Bit(last as int, i)) % 2
  {
    assert (bytes + [last])[..|bytes|] == bytes;
    XorByteBit(XorAll(bytes), last, i);
  }

  /** Bit `i` of the xor of a buffer is set iff an odd number of its bytes have bit `i` set. */
  lemma {:induction false} XorAllIsParity(bytes: seq<Byte>, i: nat)
    requires i < CHAR_BIT
    ensures Bit(XorAll(bytes) as int, i) == Count(BitsAt(bytes, i)) % 2
  {
    if bytes == [] {
      ZeroHasNoBits(i);
    } else {
      var rest, last := bytes[..|bytes| - 1], bytes[|bytes| - 1];
      assert bytes == rest + [last];
      XorAllIsParity(rest, i);
      XorAllStep(rest, last, i);
      OneMoreByte(rest, last, i);
      var p, b, c := Bit(XorAll(rest) as int, i), Bit(last as int, i), Count(BitsAt(rest, i));
      ParityAdds(p, b, c, b);
    }
  }

  lemma OneMoreByte(bytes: seq<Byte>, last: Byte, i: nat)
    ensures Count(BitsAt(bytes + [last], i)) == Count(BitsAt(bytes, i)) + Bit(last as int, i)
  {
    var b := Bit(last as int, i) == 1;
    assert BitsAt(bytes + [last], i) == BitsAt(bytes, i) + [b];
    CountOneMore(BitsAt(bytes, i), b);
  }

  lemma {:induction false} ZeroHasNoBits(i: nat)
    ensures Bit(0, i) == 0
  {
    if i > 0 {
      ZeroHasNoBits(i - 1);
    }
  }

  /** Bit `i` of a task's checksum is set iff an odd number of the bytes of all messages have bit `i` set. */
  lemma {:induction false} ChecksumIsParity(received: seq<seq<Byte>>, i: nat)
    requires i < CHAR_BIT
    ensures Bit(Checksum(received) as int, i) == SetIn(received, i) % 2
    ensures Checksum(received) as int < 256
  {
    if received == [] {
      ZeroHasNoBits(i);
    } else {
      var rest, last := received[..|received| - 1], received[|received| - 1];
      ChecksumIsParity(rest, i);
      XorAllIsParity(last, i);
      XorByteBit(Checksum(rest), XorAll(last), i);
      ParityAdds(Bit(Checksum(rest) as int, i), Bit(XorAll(last) as int, i), SetIn(rest, i), Count(BitsAt(last, i)));
    }
  }

  lemma ChecksumAppend(received: seq<seq<Byte>>, msg: seq<Byte>)
    ensures Checksum(received + [msg]) == Xor(Checksum(received), XorAll(msg))
  {
    assert (received + [msg])[..|received|] == received;
  }

  /** `read_input_buffer`. */
  method ReadInputBuffer(buffer: array<Byte>) returns (checksum: Byte)
    ensures checksum == XorAll(buffer[..])
  {
    checksum := NUL;
    for i := 0 to buffer.Length
      invariant checksum == XorAll(buffer[..i])
    {
      assert buffer[..i + 1][..i] == buffer[..i];
      checksum := Xor(checksum, buffer[i]);
    }
    assert buffer[..] == buffer[..buffer.Length];
  }

  /** The messages in a task's `in_buffers`. */
  ghost function Contents(buffers: seq<array<Byte>>): (c: seq<seq<Byte>>)
    reads buffers
    ensures |c| == |buffers|
  {
    if buffers == [] then [] else Contents(buffers[..|buffers| - 1]) + [buffers[|buffers| - 1][..]]
  }

  lemma ContentsGrow(before: seq<seq<Byte>>, buffers: seq<array<Byte>>, i: nat)
    requires i < |buffers|
    ensures Checksum(before + Contents(buffers[..i + 1]))
         == Xor(Checksum(before + Contents(buffers[..i])), XorAll(buffers[i][..]))
  {
    var was, now := before + Contents(buffers[..i]), before + Contents(buffers[..i + 1]);
    assert buffers[..i + 1][..i] == buffers[..i];
    assert now == was + [buffers[i][..]];
    assert now[..|now| - 1] == was;
  }

  /** The read loop of `wait_incoming_messages`, from a checksum that accounts for `before`. */
  method ReadInputs(inBuffers: seq<array<Byte>>, checksum: Byte, ghost before: seq<seq<Byte>>) returns (r: Byte)
    requires checksum == Checksum(before)
    ensures r == Checksum(before + Contents(inBuffers))
  {
    r := checksum;
    assert before + Contents(inBuffers[..0]) == before;
    for i := 0 to |inBuffers|
      invariant r == Checksum(before + Contents(inBuffers[..i]))
    {
      var c := ReadInputBuffer(inBuffers[i]);
      r := Xor(r, c);
      ContentsGrow(before, inBuffers, i);
    }
    assert inBuffers[..|inBuffers|] == inBuffers;
  }

  /** `snprintf` into a buffer: at most `size - 1` bytes and a NUL; returns the untruncated length. */
  method Snprintf(buffer: array<Byte>, text: seq<Byte>) returns (len: nat)
    requires buffer.Length >= 1
    modifies buffer
    ensures len == |text|
    ensures var kept := if |text| < buffer.Length then |text| else buffer.Length - 1;
            && buffer[..kept] == text[..kept] && buffer[kept] == NUL
            && buffer[kept + 1..] == old(buffer[kept + 1..])
  {
    len := |text|;
    var kept := if |text| < buffer.Length then |text| else buffer.Length - 1;
    for i := 0 to kept
      invariant buffer[..i] == text[..i]
      invariant buffer[i..] == old(buffer[i..])
    {
      ghost var before := buffer[..];
      buffer[i] := text[i];
      assert buffer[..i + 1] == before[..i] + [text[i]];
      assert buffer[i + 1..] == before[i..][1..] == old(buffer[i..])[1..];
    }
    ghost var rest := buffer[kept..];
    buffer[kept] := NUL;
    assert buffer[kept + 1..] == rest[1..] == old(buffer[kept..])[1..];
  }

  /** `write_to_queue`, with RTDAG_MEM_ACCESS on. */
  method WriteToQueue(from: seq<Byte>, iter: nat, buffer: array<Byte>)
    requires buffer.Length >= 1
    modifies buffer
    ensures buffer[..] == Message(from, iter, buffer.Length)
  {
    var size := buffer.Length;
    var text := Text(from, iter);
    var len := Snprintf(buffer, text);
    if len < size {
      for i := len to size
        invariant buffer[..len] == text
        invariant forall k :: len <= k < i ==> buffer[k] == DOT
      {
        buffer[i] := DOT;
      }
      buffer[size - 1] := NUL;
      assert buffer[..] == text + seq(size - 1 - |text|, _ => DOT) + [NUL];
    } else {
      assert buffer[..] == buffer[..size - 1] + [buffer[size - 1]];
    }
  }
}
