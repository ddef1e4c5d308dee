/**
 * The image-data compression of the GIF exporter: variable-length-code LZW as in
 * Appendix F of the GIF89a specification (minimum code size 8, clear code 256,
 * end-of-information code 257, codes of 9 to 12 bits, a table of at most 4096 codes
 * that is reset with a clear code when full), and the packing of the codes into bytes,
 * least significant bit first.
 *
 * The code table is keyed by the run of palette indices itself; the exporter keys it by
 * the indices written in decimal and joined with commas, which is a one-to-one naming of
 * the same runs.
 */
module Lzw {

  /** A value that fits in one byte. */
  type byte = x: int | 0 <= x < 256

  const MinCodeSize: nat := 8
  const ClearCode: nat := 256
  const EoiCode: nat := 257
  const FirstFreeCode: nat := 258
  const MaxCodeSize: nat := 12
  const TableLimit: nat := 4096

  /** `v << k` on unbounded integers: v doubled k times. */
  function Shl(v: nat, k: nat): nat
    decreases k
  {
    if k == 0 then v else 2 * Shl(v, k - 1)
  }

  /** `1 << n` */
  function Pow2(n: nat): nat {
    Shl(1, n)
  }

  lemma {:induction false} ShlAdd(a: nat, b: nat, k: nat)
    ensures Shl(a + b, k) == Shl(a, k) + Shl(b, k)
    decreases k
  {
    if k > 0 {
      ShlAdd(a, b, k - 1);
    }
  }

  lemma {:induction false} ShlShl(v: nat, a: nat, b: nat)
    ensures Shl(Shl(v, a), b) == Shl(v, a + b)
    decreases b
  {
    if b > 0 {
      ShlShl(v, a, b - 1);
    }
  }

  lemma {:induction false} ShlMonotone(v: nat, w: nat, k: nat)
    requires v <= w
    ensures Shl(v, k) <= Shl(w, k)
    decreases k
  {
    if k > 0 {
      ShlMonotone(v, w, k - 1);
    }
  }

  lemma {:induction false} ShlZero(k: nat)
    ensures Shl(0, k) == 0
    decreases k
  {
    if k > 0 {
      ShlZero(k - 1);
    }
  }

  /** Shifting by eight is multiplying by 256. */
  lemma {:induction false} Shl8(v: nat)
    ensures Shl(v, 8) == 256 * v
  {
    assert Shl(v, 2) == 4 * v;
    assert Shl(v, 4) == 16 * v;
    assert Shl(v, 6) == 64 * v;
  }

  /** The powers the encoder's bounds use. */
  lemma Pow2Values()
    ensures Pow2(8) == 256 && Pow2(9) == 512 && Pow2(12) == 4096
  {
    Shl8(1);
    assert Pow2(10) == 1024;
  }

  lemma {:induction false} Pow2Positive(n: nat)
    ensures Pow2(n) >= 1
    decreases n
  {
    if n > 0 {
      Pow2Positive(n - 1);
    }
  }

  lemma {:induction false} Pow2Monotone(a: nat, b: nat)
    requires a <= b
    ensures Pow2(a) <= Pow2(b)
    decreases b
  {
    if a < b {
      Pow2Monotone(a, b - 1);
      Pow2Positive(b - 1);
    }
  }

  // ---------------------------------------------------------------- the code stream

  /** An emitted code, the width it is written with, and the run of indices it stands for (empty for clear and EOI). */
  datatype Code = Code(value: nat, size: nat, text: seq<byte>)

  /** The first n one-index runs, each coded by its own index. */
  function Literals(n: nat): map<seq<byte>, nat>
    requires n <= 256
  {
    if n == 0 then map[] else Literals(n - 1)[[(n - 1) as byte] := n - 1]
  }

  /** The 256 one-index runs, each coded by its own index. */
  function InitialTable(): map<seq<byte>, nat> {
    Literals(256)
  }

  /** `codeTable.get(k)`, where a missing key reads as `undefined` and is emitted as 0. */
  function TableGet(table: map<seq<byte>, nat>, k: seq<byte>): nat {
    if k in table then table[k] else 0
  }

  /** The encoder's state between two input indices, with the codes emitted so far. */
  datatype Encoder = Encoder(table: map<seq<byte>, nat>, nextCode: nat, codeSize: nat, current: seq<byte>, codes: seq<Code>)

  /** After the clear code and the first index (none for an empty input). */
  function Start(xs: seq<byte>): Encoder
    requires |xs| <= 1
  {
    Encoder(InitialTable(), FirstFreeCode, MinCodeSize + 1, xs, [Code(ClearCode, MinCodeSize + 1, [])])
  }

  /**
   * One turn of the loop: extend the current run when the table knows the longer run;
   * otherwise emit the current run's code and add the longer run to the table (growing
   * the code size when the next code no longer fits), or, with a full table, emit a clear
   * code and start over with the literals.
   */
  function Step(st: Encoder, b: byte): Encoder {
    var combined := st.current + [b];
    if combined in st.table then st.(current := combined)
    else
      var emitted := st.codes + [Code(TableGet(st.table, st.current), st.codeSize, st.current)];
      if st.nextCode < TableLimit then
        var next := st.nextCode + 1;
        var size := if next > Pow2(st.codeSize) && st.codeSize < MaxCodeSize then st.codeSize + 1 else st.codeSize;
        Encoder(st.table[combined := st.nextCode], next, size, [b], emitted)
      else
        Encoder(InitialTable(), FirstFreeCode, MinCodeSize + 1, [b], emitted + [Code(ClearCode, st.codeSize, [])])
  }

  /** The state after the given indices. */
  function Run(xs: seq<byte>): Encoder
    decreases |xs|
  {
    if |xs| <= 1 then Start(xs) else Step(Run(xs[..|xs| - 1]), xs[|xs| - 1])
  }

  /** The codes of the whole input: those of the loop, the code of the last run, and EOI. */
  function LzwCodes(xs: seq<byte>): seq<Code> {
    Finish(Run(xs))
  }

  /** After the loop: the code of the last run, then EOI. */
  function Finish(st: Encoder): seq<Code> {
    st.codes + [Code(TableGet(st.table, st.current), st.codeSize, st.current), Code(EoiCode, st.codeSize, [])]
  }

  /** The runs the codes stand for, one after the other. */
  function Texts(codes: seq<Code>): seq<byte>
    decreases |codes|
  {
    if codes == [] then [] else Texts(codes[..|codes| - 1]) + codes[|codes| - 1].text
  }

  /** A code is written with 9 to 12 bits and its value fits in them. */
  predicate Fits(c: Code) {
    MinCodeSize + 1 <= c.size <= MaxCodeSize && c.value < Pow2(c.size)
  }

  predicate AllFit(codes: seq<Code>) {
    forall i :: 0 <= i < |codes| ==> Fits(codes[i])
  }

  /** Every literal run is in the table under its own index. */
  predicate HoldsLiterals(table: map<seq<byte>, nat>) {
    forall b: byte :: [b] in table && table[[b]] == b
  }

  /**
   * The invariant of the table: codes below `nextCode`, at most 4096 of them, a code size
   * of 9 to 12 bits that `nextCode` does not outgrow, all literals present, and every
   * longer run's prefix present too.
   */
  predicate TableInv(st: Encoder) {
    FirstFreeCode <= st.nextCode <= TableLimit
    && MinCodeSize + 1 <= st.codeSize <= MaxCodeSize
    && st.nextCode <= Pow2(st.codeSize)
    && HoldsLiterals(st.table)
    && (forall k :: k in st.table ==> st.table[k] < st.nextCode && |k| >= 1)
    && (forall k :: k in st.table && |k| > 1 ==> k[..|k| - 1] in st.table)
  }

  lemma {:induction false} LiteralsMeaning(n: nat)
    requires n <= 256
    ensures forall b: byte :: b < n ==> [b] in Literals(n) && Literals(n)[[b]] == b
    ensures forall k :: k in Literals(n) ==> |k| == 1 && Literals(n)[k] < n
  {
    if n > 0 {
      LiteralsMeaning(n - 1);
    }
  }

  lemma InitialTableMeaning()
    ensures HoldsLiterals(InitialTable())
    ensures forall k :: k in InitialTable() ==> |k| == 1 && InitialTable()[k] < ClearCode
  {
    LiteralsMeaning(256);
  }

  lemma TextsSnoc(codes: seq<Code>, c: Code)
    ensures Texts(codes + [c]) == Texts(codes) + c.text
  {
    assert (codes + [c])[..|codes|] == codes;
  }

  /** The codes so far: the clear code first, every code fitting its width. */
  predicate CodesOk(codes: seq<Code>) {
    AllFit(codes) && |codes| >= 1 && codes[0] == Code(ClearCode, MinCodeSize + 1, [])
  }

  /** The full invariant of a state reached from `xs`. */
  predicate Reached(st: Encoder, xs: seq<byte>) {
    TableInv(st)
    && CodesOk(st.codes)
    && Texts(st.codes) + st.current == xs
    && (xs != [] ==> st.current in st.table)
    && (xs == [] ==> st.current == [])
  }

  lemma StartReached(xs: seq<byte>)
    requires |xs| <= 1
    ensures Reached(Start(xs), xs)
  {
    InitialTableMeaning();
    var st := Start(xs);
    assert Texts(st.codes) == Texts([]) + [] by { TextsSnoc([], st.codes[0]); }
    Pow2Values();
    if xs != [] {
      assert xs == [xs[0]];
      assert [xs[0]] in InitialTable();
    }
  }

  lemma AppendOk(codes: seq<Code>, c: Code)
    requires CodesOk(codes) && Fits(c)
    ensures CodesOk(codes + [c]) && Texts(codes + [c]) == Texts(codes) + c.text
  {
    var all := codes + [c];
    forall i | 0 <= i < |all| ensures Fits(all[i]) {
      if i < |codes| { assert all[i] == codes[i]; }
    }
    TextsSnoc(codes, c);
  }

  /** The code of the current run fits the current width. */
  lemma CurrentFits(st: Encoder)
    requires TableInv(st)
    ensures Fits(Code(TableGet(st.table, st.current), st.codeSize, st.current))
  {
  }

  /** One step keeps the invariant, and the new index joins the runs. */
  lemma StepReached(st: Encoder, xs: seq<byte>, b: byte)
    requires Reached(st, xs) && xs != []
    ensures Reached(Step(st, b), xs + [b])
  {
    var combined := st.current + [b];
    if combined in st.table {
      ExtendReached(st, xs, b);
    } else {
      if st.nextCode < TableLimit {
        StepGrows(st, b);
        EmitGrowReached(st, xs, b);
      } else {
        EmitResetReached(st, xs, b);
      }
    }
  }

  /** Extending the current run: the codes stay, the current run grows by `b`. */
  lemma ExtendReached(st: Encoder, xs: seq<byte>, b: byte)
    requires Reached(st, xs) && st.current + [b] in st.table
    ensures Reached(Step(st, b), xs + [b])
  {
    var st' := Step(st, b);
    assert st' == st.(current := st.current + [b]);
    assert Texts(st'.codes) + st'.current == xs + [b];
  }

  /** Emitting and adding a run: the codes gain the current run's code and the current run restarts at `b`. */
  lemma EmitGrowReached(st: Encoder, xs: seq<byte>, b: byte)
    requires Reached(st, xs) && xs != []
    requires st.current + [b] !in st.table && st.nextCode < TableLimit
    requires TableInv(Step(st, b))
    ensures Reached(Step(st, b), xs + [b])
  {
    var c := Code(TableGet(st.table, st.current), st.codeSize, st.current);
    CurrentFits(st);
    AppendOk(st.codes, c);
    var st' := Step(st, b);
    assert st'.codes == st.codes + [c] && st'.current == [b];
    assert st'.table == st.table[st.current + [b] := st.nextCode];
    assert [b] in st'.table;
  }

  /** Emitting with a full table: the codes gain the current run's code and a clear code, and the table restarts. */
  lemma EmitResetReached(st: Encoder, xs: seq<byte>, b: byte)
    requires Reached(st, xs) && xs != []
    requires st.current + [b] !in st.table && st.nextCode >= TableLimit
    ensures Reached(Step(st, b), xs + [b])
  {
    var c := Code(TableGet(st.table, st.current), st.codeSize, st.current);
    var clear := Code(ClearCode, st.codeSize, []);
    CurrentFits(st);
    AppendOk(st.codes, c);
    Pow2Monotone(9, st.codeSize);
    Pow2Values();
    var codes := st.codes + [c] + [clear];
    AppendOk(st.codes + [c], clear);
    assert Texts(codes) + [b] == xs + [b];
    assert Step(st, b) == Encoder(InitialTable(), FirstFreeCode, MinCodeSize + 1, [b], codes);
    FreshReached(codes, b, xs + [b]);
  }

  /** A fresh table with the current run `[b]` after codes spelling the rest. */
  lemma FreshReached(codes: seq<Code>, b: byte, ys: seq<byte>)
    requires CodesOk(codes) && Texts(codes) + [b] == ys
    ensures Reached(Encoder(InitialTable(), FirstFreeCode, MinCodeSize + 1, [b], codes), ys)
  {
    InitialTableMeaning();
    Pow2Values();
    assert [b] in InitialTable();
  }

  /** Adding a run keeps the table invariant: the code size grows exactly when `nextCode` outgrows it. */
  lemma StepGrows(st: Encoder, b: byte)
    requires TableInv(st) && st.current in st.table && st.nextCode < TableLimit
    requires st.current + [b] !in st.table
    ensures TableInv(Step(st, b))
  {
    var combined := st.current + [b];
    var next := st.nextCode + 1;
    var size := if next > Pow2(st.codeSize) && st.codeSize < MaxCodeSize then st.codeSize + 1 else st.codeSize;
    var table := st.table[combined := st.nextCode];
    var st' := Step(st, b);
    assert st'.table == table && st'.nextCode == next && st'.codeSize == size;
    assert combined[..|combined| - 1] == st.current;
    if st.codeSize == MaxCodeSize {
      Pow2Values();
    }
    assert next <= Pow2(size) by {
      if size != st.codeSize {
        assert Pow2(size) == 2 * Pow2(st.codeSize);
      }
    }
    forall k | k in table && |k| > 1 ensures k[..|k| - 1] in table {
      if k != combined { assert k in st.table; }
    }
    forall b': byte ensures [b'] in table && table[[b']] == b' {
      assert [b'] != combined;
    }
  }

  lemma PrefixSnoc(xs: seq<byte>, n: nat)
    requires 1 <= n < |xs|
    ensures xs[..n + 1][..n] == xs[..n]
  {
  }

  /**
   * The state after any input satisfies the invariant: code size at most 12, `nextCode` at
   * most 4096, every code fitting its width, the clear code first, and the runs of the
   * codes followed by the current run giving back the input.
   */
  lemma {:induction false} RunReached(xs: seq<byte>)
    ensures Reached(Run(xs), xs)
    decreases |xs|
  {
    if |xs| <= 1 {
      StartReached(xs);
    } else {
      var init := xs[..|xs| - 1];
      var b := xs[|xs| - 1];
      assert init + [b] == xs;
      assert Run(xs) == Step(Run(init), b);
      RunReached(init);
      StepReached(Run(init), init, b);
    }
  }

  /**
   * The code stream starts with the clear code and ends with EOI; every code fits its
   * width of 9 to 12 bits; and the runs the codes stand for, in order, are the input.
   */
  lemma LzwCodesMeaning(xs: seq<byte>)
    ensures var cs := LzwCodes(xs);
      |cs| >= 3 && cs[0] == Code(ClearCode, MinCodeSize + 1, []) && cs[|cs| - 1].value == EoiCode
      && AllFit(cs)
      && Texts(cs) == xs
  {
    RunReached(xs);
    FinishMeaning(Run(xs), xs);
  }

  lemma FinishMeaning(st: Encoder, xs: seq<byte>)
    requires Reached(st, xs)
    ensures var cs := Finish(st);
      |cs| >= 3 && cs[0] == Code(ClearCode, MinCodeSize + 1, []) && cs[|cs| - 1].value == EoiCode
      && AllFit(cs)
      && Texts(cs) == xs
  {
    var c := Code(TableGet(st.table, st.current), st.codeSize, st.current);
    var eoi := Code(EoiCode, st.codeSize, []);
    assert Finish(st) == st.codes + [c] + [eoi];
    CurrentFits(st);
    AppendOk(st.codes, c);
    Pow2Monotone(9, st.codeSize);
    Pow2Values();
    AppendOk(st.codes + [c], eoi);
  }

  /** A full table is replaced by the literals, with `nextCode` 258 and code size 9, after a clear code. */
  lemma ResetOnFullTable(st: Encoder, b: byte)
    requires st.nextCode >= TableLimit && st.current + [b] !in st.table
    ensures var st' := Step(st, b);
      st'.table == InitialTable() && st'.nextCode == FirstFreeCode && st'.codeSize == MinCodeSize + 1
      && st'.codes[|st'.codes| - 1] == Code(ClearCode, st.codeSize, [])
  {
  }

  // ---------------------------------------------------------------- bit packing

  /** The bit buffer, the number of bits in it, and the bytes written so far. */
  datatype Bits = Bits(buffer: nat, len: nat, out: seq<byte>)

  /** `while (bufferLen >= 8)`: write the low byte and shift it out. */
  function Drain(st: Bits): Bits
    decreases st.len
  {
    if st.len >= 8 then Drain(Bits(st.buffer / 256, st.len - 8, st.out + [st.buffer % 256])) else st
  }

  /**
   * `emit`: `buffer |= code << bufferLen`, then drain. The buffer holds fewer than
   * `bufferLen` significant bits (see PackAllMeaning), so the or is an addition.
   */
  function Put(st: Bits, value: nat, size: nat): Bits {
    Drain(Bits(st.buffer + Shl(value, st.len), st.len + size, st.out))
  }

  /** The bit state after emitting the codes. */
  function PackAll(codes: seq<Code>): Bits
    decreases |codes|
  {
    if codes == [] then Bits(0, 0, [])
    else
      var c := codes[|codes| - 1];
      Put(PackAll(codes[..|codes| - 1]), c.value, c.size)
  }

  /** The bytes of the codes: the drained bytes and a last partial byte, if any. */
  function Pack(codes: seq<Code>): seq<byte> {
    Flush(PackAll(codes))
  }

  /** `if (bufferLen > 0) output.push(buffer & 0xff)` */
  function Flush(st: Bits): seq<byte> {
    if st.len > 0 then st.out + [st.buffer % 256] else st.out
  }

  /** The number the bytes spell, least significant byte first. */
  function LeValue(bytes: seq<byte>): nat
    decreases |bytes|
  {
    if bytes == [] then 0
    else LeValue(bytes[..|bytes| - 1]) + Shl(bytes[|bytes| - 1], 8 * (|bytes| - 1))
  }

  function TotalBits(codes: seq<Code>): nat
    decreases |codes|
  {
    if codes == [] then 0 else TotalBits(codes[..|codes| - 1]) + codes[|codes| - 1].size
  }

  /** The number the codes spell when each is laid down after the previous ones, least significant bit first. */
  function BitValue(codes: seq<Code>): nat
    decreases |codes|
  {
    if codes == [] then 0
    else
      var init := codes[..|codes| - 1];
      BitValue(init) + Shl(codes[|codes| - 1].value, TotalBits(init))
  }

  /** The packing invariant: written bytes and buffer together spell the codes so far. */
  predicate Packed(st: Bits, value: nat, bits: nat) {
    LeValue(st.out) + Shl(st.buffer, 8 * |st.out|) == value
    && st.buffer < Pow2(st.len)
    && 8 * |st.out| + st.len == bits
  }

  lemma LeValueSnoc(bytes: seq<byte>, b: byte)
    ensures LeValue(bytes + [b]) == LeValue(bytes) + Shl(b, 8 * |bytes|)
  {
    assert (bytes + [b])[..|bytes|] == bytes;
  }

  /** Writing one byte out of the buffer keeps the invariant. */
  lemma DrainOne(st: Bits, value: nat, bits: nat)
    requires Packed(st, value, bits) && st.len >= 8
    ensures Packed(Bits(st.buffer / 256, st.len - 8, st.out + [st.buffer % 256]), value, bits)
  {
    var out := st.out + [st.buffer % 256];
    LeValueSnoc(st.out, st.buffer % 256);
    LowByteSplit(st.buffer, 8 * |st.out|);
    assert 8 * |out| == 8 * |st.out| + 8;
    assert LeValue(out) + Shl(st.buffer / 256, 8 * |out|) == value;
    HighBound(st.buffer, st.len);
  }

  /** The buffer at bit offset n is its low byte there and the rest eight bits further on. */
  lemma LowByteSplit(buffer: nat, n: nat)
    ensures Shl(buffer, n) == Shl(buffer % 256, n) + Shl(buffer / 256, n + 8)
  {
    Shl8(buffer / 256);
    assert buffer == buffer % 256 + Shl(buffer / 256, 8);
    ShlAdd(buffer % 256, Shl(buffer / 256, 8), n);
    ShlShl(buffer / 256, 8, n);
  }

  /** Shifting out a byte leaves eight significant bits fewer. */
  lemma HighBound(buffer: nat, len: nat)
    requires len >= 8 && buffer < Pow2(len)
    ensures buffer / 256 < Pow2(len - 8)
  {
    ShlShl(1, len - 8, 8);
    Shl8(Pow2(len - 8));
  }

  lemma {:induction false} DrainKeeps(st: Bits, value: nat, bits: nat)
    requires Packed(st, value, bits)
    ensures Packed(Drain(st), value, bits) && Drain(st).len < 8
    decreases st.len
  {
    if st.len >= 8 {
      DrainOne(st, value, bits);
      DrainKeeps(Bits(st.buffer / 256, st.len - 8, st.out + [st.buffer % 256]), value, bits);
    }
  }

  lemma TotalsSnoc(codes: seq<Code>, c: Code)
    ensures TotalBits(codes + [c]) == TotalBits(codes) + c.size
    ensures BitValue(codes + [c]) == BitValue(codes) + Shl(c.value, TotalBits(codes))
  {
    assert (codes + [c])[..|codes|] == codes;
  }

  /** Adding a code to the buffer: the value grows by the code at the current bit offset. */
  lemma PutKeeps(st: Bits, value: nat, bits: nat, v: nat, size: nat)
    requires Packed(st, value, bits) && v < Pow2(size)
    ensures Packed(Put(st, v, size), value + Shl(v, bits), bits + size) && Put(st, v, size).len < 8
  {
    var n := 8 * |st.out|;
    var grown := Bits(st.buffer + Shl(v, st.len), st.len + size, st.out);
    ShiftedSum(LeValue(st.out), st.buffer, v, st.len, n, bits);
    assert LeValue(grown.out) + Shl(grown.buffer, 8 * |grown.out|) == value + Shl(v, bits);
    PutBound(st.buffer, v, st.len, size);
    assert grown.buffer < Pow2(grown.len);
    assert 8 * |grown.out| + grown.len == bits + size;
    assert Packed(grown, value + Shl(v, bits), bits + size);
    PutDrains(st, v, size, value + Shl(v, bits), bits + size);
  }

  /** Emitting drains the widened buffer, which keeps the invariant. */
  lemma PutDrains(st: Bits, v: nat, size: nat, value: nat, bits: nat)
    requires Packed(Bits(st.buffer + Shl(v, st.len), st.len + size, st.out), value, bits)
    ensures Packed(Put(st, v, size), value, bits) && Put(st, v, size).len < 8
  {
    var grown := Bits(st.buffer + Shl(v, st.len), st.len + size, st.out);
    assert Put(st, v, size) == Drain(grown);
    DrainKeeps(grown, value, bits);
  }

  /** Or-ing `v << len` into a buffer that is written at bit offset n adds `v << (n + len)`. */
  lemma ShiftedSum(le: nat, buffer: nat, v: nat, len: nat, n: nat, bits: nat)
    requires n + len == bits
    ensures le + Shl(buffer + Shl(v, len), n) == le + Shl(buffer, n) + Shl(v, bits)
  {
    ShlAdd(buffer, Shl(v, len), n);
    ShlShl(v, len, n);
  }

  /** A buffer below `1 << len` plus a code below `1 << size` shifted by `len` stays below `1 << (len + size)`. */
  lemma PutBound(buffer: nat, v: nat, len: nat, size: nat)
    requires buffer < Pow2(len) && v < Pow2(size)
    ensures buffer + Shl(v, len) < Pow2(len + size)
  {
    ShlAdd(v, 1, len);
    ShlMonotone(v + 1, Pow2(size), len);
    ShlShl(1, size, len);
  }

  /**
   * After any sequence of fitting codes the written bytes and the buffer spell the codes,
   * and the buffer holds fewer than eight bits and no more significant bits than its
   * length.
   */
  lemma {:induction false} PackAllMeaning(codes: seq<Code>)
    requires AllFit(codes)
    ensures Packed(PackAll(codes), BitValue(codes), TotalBits(codes)) && PackAll(codes).len < 8
    decreases |codes|
  {
    if codes == [] {
      ShlZero(0);
    } else {
      var init := codes[..|codes| - 1];
      var c := codes[|codes| - 1];
      assert AllFit(init) by {
        forall i | 0 <= i < |init| ensures Fits(init[i]) { assert init[i] == codes[i]; }
      }
      assert Fits(codes[|codes| - 1]);
      PackAllMeaning(init);
      PutKeeps(PackAll(init), BitValue(init), TotalBits(init), c.value, c.size);
      assert init + [c] == codes;
      TotalsSnoc(init, c);
    }
  }

  /** Before the or, the buffer plus the shifted code stays below 2^19, inside JavaScript's 32-bit integers. */
  lemma PutStaysSmall(st: Bits, c: Code)
    requires st.len < 8 && st.buffer < Pow2(st.len) && Fits(c)
    ensures st.buffer + Shl(c.value, st.len) < Pow2(19)
  {
    PutBound(st.buffer, c.value, st.len, c.size);
    Pow2Monotone(st.len + c.size, 19);
  }

  /**
   * The packed bytes, read least significant byte first, are exactly the codes laid down
   * least significant bit first, in as many bytes as the bits need.
   */
  lemma PackMeaning(codes: seq<Code>)
    requires AllFit(codes)
    ensures LeValue(Pack(codes)) == BitValue(codes)
    ensures |Pack(codes)| == (TotalBits(codes) + 7) / 8
  {
    PackAllMeaning(codes);
    FlushMeaning(PackAll(codes), BitValue(codes), TotalBits(codes));
  }

  /** Writing the last partial byte: the bytes alone spell the value, in as many bytes as the bits need. */
  lemma FlushMeaning(st: Bits, value: nat, bits: nat)
    requires Packed(st, value, bits) && st.len < 8
    ensures LeValue(Flush(st)) == value && |Flush(st)| == (bits + 7) / 8
  {
    var n := 8 * |st.out|;
    if st.len > 0 {
      Pow2Monotone(st.len, 8);
      Pow2Values();
      assert st.buffer % 256 == st.buffer;
      LeValueSnoc(st.out, st.buffer);
      assert Flush(st) == st.out + [st.buffer];
    } else {
      assert st.buffer == 0 by { assert Pow2(0) == 1; }
      ShlZero(n);
      assert Flush(st) == st.out;
    }
  }

  // ---------------------------------------------------------------- the encoder

  /** `for (let i = 0; i < clearCode; i++) codeTable.set(String(i), i)` */
  method InitialCodeTable() returns (table: map<seq<byte>, nat>)
    ensures table == InitialTable()
  {
    table := map[];
    var i := 0;
    while i < ClearCode
      invariant 0 <= i <= ClearCode
      invariant table == Literals(i)
    {
      table := table[[i as byte] := i];
      i := i + 1;
    }
  }

  /** `emit`: or the code into the buffer and write out every full byte. */
  method EmitCode(buffer0: nat, bufferLen0: nat, output0: seq<byte>, code: nat, codeSize: nat)
    returns (buffer: nat, bufferLen: nat, output: seq<byte>)
    ensures Bits(buffer, bufferLen, output) == Put(Bits(buffer0, bufferLen0, output0), code, codeSize)
  {
    buffer := buffer0 + Shl(code, bufferLen0);
    bufferLen := bufferLen0 + codeSize;
    output := output0;
    while bufferLen >= 8
      invariant Drain(Bits(buffer, bufferLen, output)) == Put(Bits(buffer0, bufferLen0, output0), code, codeSize)
    {
      output := output + [buffer % 256];
      buffer := buffer / 256;
      bufferLen := bufferLen - 8;
    }
  }

  /** `lzwEncode(indexed, 8)`: the bytes of the code stream. */
  method LzwEncode(indexed: seq<byte>) returns (output: seq<byte>)
    ensures output == Pack(LzwCodes(indexed))
  {
    var codeSize := MinCodeSize + 1;
    var nextCode := FirstFreeCode;
    var codeTable := InitialCodeTable();
    output := [];
    var buffer := 0;
    var bufferLen := 0;
    buffer, bufferLen, output := EmitCode(buffer, bufferLen, output, ClearCode, codeSize);
    // `String(indexed[0])` of an empty input is "undefined", which is no key of the table
    var current: seq<byte> := if |indexed| > 0 then [indexed[0]] else [];
    ghost var st := Run(current);
    assert st.codes == [Code(ClearCode, MinCodeSize + 1, [])];
    assert PackAll(st.codes) == Put(PackAll([]), ClearCode, codeSize) by {
      PackAllSnoc([], st.codes[0]);
    }
    var i := 1;
    assert |indexed| > 0 ==> indexed[..i] == current;
    while i < |indexed|
      invariant |indexed| > 0 ==> i <= |indexed| && st == Run(indexed[..i])
      invariant |indexed| == 0 ==> st == Run([])
      invariant codeTable == st.table && nextCode == st.nextCode && codeSize == st.codeSize && current == st.current
      invariant Bits(buffer, bufferLen, output) == PackAll(st.codes)
    {
      assert indexed[..i + 1] == indexed[..i] + [indexed[i]];
      assert Run(indexed[..i + 1]) == Step(st, indexed[i]);
      codeTable, nextCode, codeSize, current, buffer, bufferLen, output :=
        Advance(codeTable, nextCode, codeSize, current, indexed[i], buffer, bufferLen, output, st);
      st := Step(st, indexed[i]);
      i := i + 1;
    }
    assert st == Run(indexed) by {
      if |indexed| > 0 { assert indexed[..i] == indexed; }
    }
    output := EncodeTail(codeTable, codeSize, current, buffer, bufferLen, output, st);
  }

  /** After the loop: emit the last run's code and EOI, then write the last partial byte. */
  method EncodeTail(codeTable: map<seq<byte>, nat>, codeSize: nat, current: seq<byte>,
                    buffer0: nat, bufferLen0: nat, output0: seq<byte>, ghost st: Encoder)
    returns (output: seq<byte>)
    requires codeTable == st.table && codeSize == st.codeSize && current == st.current
    requires Bits(buffer0, bufferLen0, output0) == PackAll(st.codes)
    ensures output == Pack(Finish(st))
  {
    var last := Code(TableGet(codeTable, current), codeSize, current);
    var eoi := Code(EoiCode, codeSize, []);
    assert Finish(st) == st.codes + [last] + [eoi];
    PackAllSnoc(st.codes, last);
    PackAllSnoc(st.codes + [last], eoi);
    var buffer, bufferLen;
    buffer, bufferLen, output := EmitCode(buffer0, bufferLen0, output0, TableGet(codeTable, current), codeSize);
    buffer, bufferLen, output := EmitCode(buffer, bufferLen, output, EoiCode, codeSize);
    ghost var packed := Bits(buffer, bufferLen, output);
    assert packed == PackAll(Finish(st));
    if bufferLen > 0 {
      output := output + [buffer % 256];
    }
    assert output == Flush(packed);
  }

  /**
   * One turn of the encoder's loop on the next index `b`: the variables follow `Step`, and the
   * bytes written and the bit buffer follow the codes it emits.
   */
  method Advance(codeTable0: map<seq<byte>, nat>, nextCode0: nat, codeSize0: nat, current0: seq<byte>, b: byte,
                 buffer0: nat, bufferLen0: nat, output0: seq<byte>, ghost st: Encoder)
    returns (codeTable: map<seq<byte>, nat>, nextCode: nat, codeSize: nat, current: seq<byte>,
             buffer: nat, bufferLen: nat, output: seq<byte>)
    requires codeTable0 == st.table && nextCode0 == st.nextCode && codeSize0 == st.codeSize && current0 == st.current
    requires Bits(buffer0, bufferLen0, output0) == PackAll(st.codes)
    ensures var st' := Step(st, b);
      codeTable == st'.table && nextCode == st'.nextCode && codeSize == st'.codeSize && current == st'.current
      && Bits(buffer, bufferLen, output) == PackAll(st'.codes)
  {
    codeTable, nextCode, codeSize, current := codeTable0, nextCode0, codeSize0, current0;
    buffer, bufferLen, output := buffer0, bufferLen0, output0;
    var combined := current + [b];
    if combined in codeTable {
      current := combined;
      assert Step(st, b) == st.(current := combined);
    } else {
      var c := Code(TableGet(codeTable, current), codeSize, current);
      PackAllSnoc(st.codes, c);
      buffer, bufferLen, output := EmitCode(buffer, bufferLen, output, TableGet(codeTable, current), codeSize);
      if nextCode < TableLimit {
        codeTable := codeTable[combined := nextCode];
        nextCode := nextCode + 1;
        if nextCode > Pow2(codeSize) && codeSize < MaxCodeSize {
          codeSize := codeSize + 1;
        }
        current := [b];
        assert Step(st, b) == Encoder(codeTable, nextCode, codeSize, current, st.codes + [c]);
      } else {
        var clear := Code(ClearCode, codeSize, []);
        PackAllSnoc(st.codes + [c], clear);
        buffer, bufferLen, output := EmitCode(buffer, bufferLen, output, ClearCode, codeSize);
        codeTable := InitialCodeTable();
        nextCode := FirstFreeCode;
        codeSize := MinCodeSize + 1;
        current := [b];
        assert Step(st, b) == Encoder(codeTable, nextCode, codeSize, current, st.codes + [c] + [clear]);
      }
    }
  }

  lemma PackAllSnoc(codes: seq<Code>, c: Code)
    ensures PackAll(codes + [c]) == Put(PackAll(codes), c.value, c.size)
  {
    assert (codes + [c])[..|codes|] == codes;
  }
}
