/**
 * The two operations of flix's `util.h` that are not floating-point code:
 * `splitString`, which trims a command line and cuts it into three tokens,
 * and `readRegister`, which reads a block of bytes from a register of an
 * I2C device.
 */
module Util {
  import opened ArduinoStrings
  import opened CStrings
  import opened Wire

  // ---------------------------------------------------------------------
  // splitString
  // ---------------------------------------------------------------------

  function Spaces(n: nat): string {
    seq(n, _ => ' ')
  }

  /**
   * How `c` falls apart into three tokens: `t0` up to the first space, then
   * a run of `g` spaces, then `t1` up to the next space, then -- after that
   * one space -- everything else as `t2`, spaces included. A missing token
   * is empty.
   */
  ghost predicate ThreeWaySplit(c: string, t0: string, t1: string, t2: string) {
    && ' ' !in t0 && ' ' !in t1
    && (t0 == [] ==> c == [])
    && (t1 == [] ==> t2 == [])
    && exists g: nat ::
         || (c == t0 + Spaces(g) + t1 && t2 == [] && (g == 0 ==> t1 == []))
         || (g > 0 && t1 != [] && c == t0 + Spaces(g) + t1 + " " + t2)
  }

  /**
   * The same split described by positions: `t0` is `c[0..|t0|]` and holds no
   * space, then come `g` spaces, then `t1` (no space), which ends at the end
   * of `c` or at a space, and `t2` is everything after that space.
   */
  ghost predicate TokenLayout(c: string, t0: string, t1: string, t2: string, g: nat) {
    var e1 := |t0| + g + |t1|;
    && e1 <= |c|
    && (t0 == [] ==> c == [])
    && (forall k :: 0 <= k < |t0| ==> c[k] == t0[k] != ' ')
    && (|t0| < |c| ==> g > 0)
    && (forall k :: |t0| <= k < |t0| + g ==> c[k] == ' ')
    && (forall k :: 0 <= k < |t1| ==> c[|t0| + g + k] == t1[k] != ' ')
    && (t1 == [] ==> |t0| + g == |c|)
    && (e1 < |c| ==> c[e1] == ' ' && |t2| == |c| - (e1 + 1))
    && (e1 == |c| ==> t2 == [])
    && (forall k :: 0 <= k < |t2| ==> c[e1 + 1 + k] == t2[k])
  }

  /** Every three-way split has a layout. */
  lemma {:induction false} SplitLayout(c: string, t0: string, t1: string, t2: string) returns (g: nat)
    requires ThreeWaySplit(c, t0, t1, t2)
    ensures TokenLayout(c, t0, t1, t2, g)
  {
    g :| || (c == t0 + Spaces(g) + t1 && t2 == [] && (g == 0 ==> t1 == []))
         || (g > 0 && t1 != [] && c == t0 + Spaces(g) + t1 + " " + t2);
    var front := t0 + Spaces(g) + t1;
    if c == front && t2 == [] && (g == 0 ==> t1 == []) {
      assert c[..|front|] == front;
      FrontLayout(c, t0, t1, g);
    } else {
      assert c == front + " " + t2;
      assert c[..|front|] == front;
      FrontLayout(c, t0, t1, g);
      assert forall k :: 0 <= k < |t2| ==> c[|front| + 1 + k] == t2[k];
    }
  }

  /** Where `c` starts with the first token, the spaces and the second token, their characters are in place. */
  lemma {:induction false} FrontLayout(c: string, t0: string, t1: string, g: nat)
    requires |t0| + g + |t1| <= |c| && c[..|t0| + g + |t1|] == t0 + Spaces(g) + t1
    ensures forall k :: 0 <= k < |t0| ==> c[k] == t0[k]
    ensures forall k :: |t0| <= k < |t0| + g ==> c[k] == ' '
    ensures forall k :: 0 <= k < |t1| ==> c[|t0| + g + k] == t1[k]
  {
    var front := t0 + Spaces(g) + t1;
    assert forall k :: 0 <= k < |front| ==> c[k] == front[k];
    assert forall k :: |t0| <= k < |t0| + g ==> front[k] == Spaces(g)[k - |t0|];
    assert forall k :: 0 <= k < |t1| ==> front[|t0| + g + k] == t1[k];
  }

  /** Every layout is a three-way split. */
  lemma {:induction false} LayoutSplit(c: string, t0: string, t1: string, t2: string, g: nat)
    requires TokenLayout(c, t0, t1, t2, g)
    ensures ThreeWaySplit(c, t0, t1, t2)
  {
    var e1 := |t0| + g + |t1|;
    assert ' ' !in t0 by {
      forall k | 0 <= k < |t0| ensures t0[k] != ' ' { assert c[k] == t0[k]; }
    }
    assert ' ' !in t1 by {
      forall k | 0 <= k < |t1| ensures t1[k] != ' ' { assert c[|t0| + g + k] == t1[k]; }
    }
    var front := LayoutFront(c, t0, t1, t2, g);
    if e1 == |c| {
      assert c == c[..e1];
    } else {
      var whole := front + " " + t2;
      assert forall k :: 0 <= k < |c| ==> whole[k] == c[k] by {
        forall k | 0 <= k < |c| ensures whole[k] == c[k] {
          if k < e1 {
            assert whole[k] == front[k];
          } else if k > e1 {
            assert whole[k] == t2[k - e1 - 1];
          }
        }
      }
      assert c == whole;
    }
  }

  /** In a layout, the text up to the end of the second token is the first token, the spaces and the second token. */
  lemma {:induction false} LayoutFront(c: string, t0: string, t1: string, t2: string, g: nat) returns (front: string)
    requires TokenLayout(c, t0, t1, t2, g)
    ensures front == t0 + Spaces(g) + t1 == c[..|t0| + g + |t1|]
  {
    var sp := Spaces(g);
    front := t0 + sp + t1;
    forall k | 0 <= k < |front| ensures front[k] == c[k] {
      if k < |t0| {
      } else if k < |t0| + g {
        assert front[k] == sp[k - |t0|];
      } else {
        assert front[k] == t1[k - |t0| - g];
      }
    }
  }

  /** A layout is determined by the string. */
  lemma {:induction false} LayoutUnique(c: string, a0: string, a1: string, a2: string, ga: nat,
                                        b0: string, b1: string, b2: string, gb: nat)
    requires TokenLayout(c, a0, a1, a2, ga) && TokenLayout(c, b0, b1, b2, gb)
    ensures a0 == b0 && a1 == b1 && a2 == b2
  {
    // The first tokens both end at the first space of c.
    RunUnique(c, 0, {' '}, false, |a0|, |b0|);
    assert forall k :: 0 <= k < |a0| ==> a0[k] == c[k] == b0[k];
    // The runs of spaces both end at the first non-space after it.
    var n := |a0|;
    assert a1 != [] ==> c[n + ga] == a1[0];
    assert b1 != [] ==> c[n + gb] == b1[0];
    assert ga == gb;
    // The second tokens both end at the next space.
    var m := n + ga;
    forall k | m <= k < m + |a1| ensures c[k] != ' ' {
      assert c[m + (k - m)] == a1[k - m];
    }
    forall k | m <= k < m + |b1| ensures c[k] != ' ' {
      assert c[m + (k - m)] == b1[k - m];
    }
    RunUnique(c, m, {' '}, false, m + |a1|, m + |b1|);
    assert forall k :: 0 <= k < |a1| ==> a1[k] == c[m + k] == b1[k];
    assert forall k :: 0 <= k < |a2| ==> a2[k] == c[m + |a1| + 1 + k] == b2[k];
  }

  /** A string has exactly one three-way split. */
  lemma {:induction false} SplitUnique(c: string, a0: string, a1: string, a2: string, b0: string, b1: string, b2: string)
    requires ThreeWaySplit(c, a0, a1, a2) && ThreeWaySplit(c, b0, b1, b2)
    ensures a0 == b0 && a1 == b1 && a2 == b2
  {
    var ga := SplitLayout(c, a0, a1, a2);
    var gb := SplitLayout(c, b0, b1, b2);
    LayoutUnique(c, a0, a1, a2, ga, b0, b1, b2, gb);
  }

  /**
   * `splitString(str, token0, token1, token2)`: trims `str` in place, then
   * splits the trimmed text -- as a C string, so only up to a NUL -- with
   * `strtok(chars, " ")`, `strtok(NULL, " ")` and `strtok(NULL, "")`.
   * `trimmed` is the new value of `str`.
   */
  method SplitString(str: string) returns (trimmed: string, token0: string, token1: string, token2: string)
    ensures IsTrimmed(trimmed) && exists i :: Framed(str, trimmed, i)
    ensures ThreeWaySplit(CString(trimmed), token0, token1, token2)
    ensures '\0' !in str ==> ThreeWaySplit(trimmed, token0, token1, token2)
    ensures AllSpace(str) ==> token0 == [] && token1 == [] && token2 == []
  {
    trimmed := Trim(str);
    var chars := CString(trimmed);
    var first := Strtok(chars, 0, {' '});
    token0 := TokenText(chars, first.token);
    var second := Strtok(chars, first.next, {' '});
    token1 := TokenText(chars, second.token);
    var third := Strtok(chars, second.next, {});
    token2 := TokenText(chars, third.token);

    ghost var g := StrtokLayout(chars, first, second, third, token0, token1, token2);
    LayoutSplit(chars, token0, token1, token2, g);
    if '\0' !in str {
      TrimKeepsNulFree(str);
    }
    if AllSpace(str) {
      TrimEmptyIffBlank(str);
    }
  }

  /** Trimming a string without NUL gives a string that is its own C string. */
  lemma {:induction false} TrimKeepsNulFree(str: string)
    requires '\0' !in str
    ensures CString(Trim(str)) == Trim(str)
  {
    var trimmed := Trim(str);
    var i: nat :| Framed(str, trimmed, i);
    assert '\0' !in trimmed by {
      forall k | 0 <= k < |trimmed| ensures trimmed[k] != '\0' {
        assert trimmed[k] == str[i + k];
      }
    }
    CStringOfNulFree(trimmed);
  }

  /** The three `strtok` calls of `splitString`, over a string that does not start with a space, lay out its tokens. */
  lemma {:induction false} StrtokLayout(c: string, first: Scan, second: Scan, third: Scan,
                                        t0: string, t1: string, t2: string) returns (g: nat)
    requires c == [] || c[0] != ' '
    requires IsScan(c, 0, {' '}, first) && t0 == TokenText(c, first.token)
    requires IsScan(c, first.next, {' '}, second) && t1 == TokenText(c, second.token)
    requires IsScan(c, second.next, {}, third) && t2 == TokenText(c, third.token)
    ensures TokenLayout(c, t0, t1, t2, g)
  {
    if c == [] {
      return 0;
    } else if second.token.None? {
      g := StrtokLayoutOneToken(c, first, second, third, t0, t1, t2);
    } else {
      StrtokRest(c, second.next, third);
      StrtokLayoutTwoTokens(c, first, second, t0, t1, t2);
      g := second.token.value.start - first.token.value.end;
    }
  }

  /** `StrtokLayout` when the second `strtok` call finds no token. */
  lemma {:induction false} StrtokLayoutOneToken(c: string, first: Scan, second: Scan, third: Scan,
                                                t0: string, t1: string, t2: string) returns (g: nat)
    requires c != [] && c[0] != ' '
    requires IsScan(c, 0, {' '}, first) && t0 == TokenText(c, first.token)
    requires IsScan(c, first.next, {' '}, second) && t1 == TokenText(c, second.token)
    requires IsScan(c, second.next, {}, third) && t2 == TokenText(c, third.token)
    requires second.token.None?
    ensures TokenLayout(c, t0, t1, t2, g)
  {
    var e0 := first.token.value.end;
    assert first.token.value.start == 0;
    g := if e0 == |c| then 0 else |c| - e0;
  }

  /** `StrtokLayout` when the second `strtok` call finds a token; `t2` is the rest after `second`. */
  lemma {:induction false} StrtokLayoutTwoTokens(c: string, first: Scan, second: Scan,
                                                 t0: string, t1: string, t2: string)
    requires c != [] && c[0] != ' '
    requires IsScan(c, 0, {' '}, first) && t0 == TokenText(c, first.token)
    requires IsScan(c, first.next, {' '}, second) && t1 == TokenText(c, second.token)
    requires |t2| == |c| - second.next && forall k :: 0 <= k < |t2| ==> t2[k] == c[second.next + k]
    requires second.token.Some?
    ensures first.token.Some? && first.token.value.end < second.token.value.start
    ensures TokenLayout(c, t0, t1, t2, second.token.value.start - first.token.value.end)
  {
    var e0, s1, e1 := first.token.value.end, second.token.value.start, second.token.value.end;
    assert first.token.value.start == 0;
    assert 0 < e0 < s1 < e1 <= |c|;
    assert forall k :: 0 <= k < e0 ==> c[k] != ' ';
    assert forall k :: e0 <= k < s1 ==> c[k] == ' ';
    assert forall k :: s1 <= k < e1 ==> c[k] != ' ';
    assert |t0| == e0 && forall k :: 0 <= k < |t0| ==> t0[k] == c[0 + k];
    assert |t1| == e1 - s1 && forall k :: 0 <= k < |t1| ==> t1[k] == c[s1 + k];
    PositionsLayout(c, t0, t1, t2, e0, s1, e1);
  }

  /** The layout of the tokens, from the positions where the first two end and the second starts. */
  lemma {:induction false} PositionsLayout(c: string, t0: string, t1: string, t2: string, e0: nat, s1: nat, e1: nat)
    requires 0 < e0 < s1 < e1 <= |c|
    requires forall k :: 0 <= k < e0 ==> c[k] != ' '
    requires forall k :: e0 <= k < s1 ==> c[k] == ' '
    requires forall k :: s1 <= k < e1 ==> c[k] != ' '
    requires e1 == |c| || c[e1] == ' '
    requires |t0| == e0 && forall k :: 0 <= k < |t0| ==> t0[k] == c[0 + k]
    requires |t1| == e1 - s1 && forall k :: 0 <= k < |t1| ==> t1[k] == c[s1 + k]
    requires e1 == |c| ==> t2 == []
    requires e1 < |c| ==> |t2| == |c| - (e1 + 1) && forall k :: 0 <= k < |t2| ==> t2[k] == c[e1 + 1 + k]
    ensures TokenLayout(c, t0, t1, t2, s1 - e0)
  {
  }

  /** `strtok(NULL, "")` returns all the rest of the string, or NULL (an empty token) when none is left. */
  lemma {:induction false} StrtokRest(c: string, cursor: nat, r: Scan)
    requires IsScan(c, cursor, {}, r)
    ensures var t := TokenText(c, r.token);
      |t| == |c| - cursor && forall k :: 0 <= k < |t| ==> t[k] == c[cursor + k]
  {
    // Names `c[cursor]` so that the verifier instantiates the "all are
    // delimiters" clause of `IsScan` at that index; with no delimiters that
    // rules out a token starting later than the cursor.
    var first := if cursor < |c| then c[cursor] else ' ';
    if r.token.Some? {
      assert r.token.value.start == cursor;
      assert r.token.value.end == |c|;
    }
  }

  // ---------------------------------------------------------------------
  // readRegister
  // ---------------------------------------------------------------------

  /**
   * Storing an `int` into a `uint8_t`: C keeps the one value in 0..255 that
   * differs from `v` by a multiple of 256.
   */
  function ToByte(v: int): (b: byte)
    ensures exists q: int :: v == 256 * q + b as int
    ensures 0 <= v < 256 ==> b as int == v
  {
    var q := v / 256;
    assert v == 256 * q + v % 256;
    (v % 256) as byte
  }

  /** What `read()` returns when nothing is left, -1, is stored as 0xFF. */
  lemma EofByte()
    ensures ToByte(-1) == 0xFF
  {
    var q: int :| -1 == 256 * q + ToByte(-1) as int;
    assert q == -1;
  }

  /**
   * The calls that address the register: begin a transmission to `device`,
   * write one byte (the low byte of `reg`, as `write(uint8_t)` takes it), and
   * end it without a stop, so the bus stays claimed.
   */
  function AddressRegister(device: int, reg: int): (r: seq<Call>)
    ensures |r| == 3 && r[0] == Begin(device) && r[2] == End(false)
    ensures r[1].WriteByte? && exists q: int :: reg == 256 * q + r[1].data as int
  {
    [Begin(device), WriteByte(ToByte(reg)), End(false)]
  }

  /** Which diagnostic `readRegister` prints on the serial port, if any. */
  datatype Diagnostic =
    | Silent
    | EmptyBufferOrLength
    | AddressWriteFailed(reg: int, device: int)
    | DataRequestFailed

  /**
   * The byte that `buffer[k] = wire->read()` stores when the receive queue
   * held `queue` before the first read: the k-th queued byte, or what storing
   * `read()`'s -1 gives once the queue has run dry.
   */
  function Received(queue: seq<byte>, k: nat): (b: byte)
    ensures k < |queue| ==> b == ToByte(queue[k] as int)
    ensures k >= |queue| ==> b == ToByte(-1)
  {
    EofByte();
    if k < |queue| then queue[k] else 0xFF
  }

  function Min(a: nat, b: nat): nat {
    if a <= b then a else b
  }

  /**
   * `readRegister(wire, device, reg, buffer, length)`: reads `length` bytes
   * from register `reg` of I2C device `device` into `buffer`; `null` stands
   * for `nullptr`. The result is all or nothing: `buffer` changes only when
   * the call returns true.
   */
  method ReadRegister(wire: TwoWire, device: int, reg: int, buffer: array?<byte>, length: nat)
    returns (ok: bool, ghost logged: Diagnostic)
    requires buffer != null ==> length <= buffer.Length
    modifies wire`trace, wire`rx, buffer
    ensures ok <==> buffer != null && length > 0 && wire.endStatus == 0 && wire.received == length
    ensures buffer == null || length == 0 ==>
      logged == EmptyBufferOrLength && wire.trace == old(wire.trace)
    ensures buffer != null && length > 0 && wire.endStatus != 0 ==>
      logged == AddressWriteFailed(reg, device)
      && wire.trace == old(wire.trace) + AddressRegister(device, reg)
    ensures buffer != null && length > 0 && wire.endStatus == 0 && wire.received != length ==>
      logged == DataRequestFailed
      && wire.trace == old(wire.trace) + AddressRegister(device, reg) + [Request(device, length)]
    ensures ok ==>
      logged == Silent
      && wire.trace == old(wire.trace) + AddressRegister(device, reg) + [Request(device, length)] + Reads(length)
    ensures !ok ==> wire.rx == old(wire.rx) && (buffer != null ==> buffer[..] == old(buffer[..]))
    ensures ok ==> buffer != null && buffer[length..] == old(buffer[length..])
    ensures ok ==> forall k :: 0 <= k < length ==> buffer[k] == Received(old(wire.rx), k)
    ensures ok ==> wire.rx == old(wire.rx[Min(length, |wire.rx|)..])
  {
    if buffer == null || length == 0 {
      return false, EmptyBufferOrLength;
    }

    wire.BeginTransmission(device);
    wire.Write(ToByte(reg));
    var status := wire.EndTransmission(false);
    assert wire.trace == old(wire.trace) + AddressRegister(device, reg);
    if status != 0 {
      return false, AddressWriteFailed(reg, device);
    }

    var bytesRead := wire.RequestFrom(device, length);
    if bytesRead == length {
      ghost var queue := wire.rx;
      ghost var before := wire.trace;
      var i := 0;
      while i < length
        invariant i <= length
        invariant wire.trace == before + Reads(i)
        invariant wire.rx == queue[Min(i, |queue|)..]
        invariant forall k :: 0 <= k < i ==> buffer[k] == Received(queue, k)
        invariant forall k :: i <= k < buffer.Length ==> buffer[k] == old(buffer[k])
      {
        var value := wire.Read();
        buffer[i] := ToByte(value);
        assert buffer[i] == Received(queue, i);
        assert Reads(i + 1) == Reads(i) + [ReadByte];
        i := i + 1;
      }
      assert buffer[length..] == old(buffer[length..]);
      return true, Silent;
    } else {
      return false, DataRequestFailed;
    }
  }
}
