/** Reads and writes over SDIO cut into CMD53 transfers (IO_RW_EXTENDED, section 5.3 of the SDIO
    Simplified Specification Part E1). */
module SdioTransfer {
  import opened Bytes

  const BLOCK: nat := 512
  const DMA_BUF_SIZE: nat := 4096
  const FRAME_BUF_SIZE: nat := 2048
  const END_ADDR: nat := 0x1F800
  const ADDR_SPACE: nat := 0x2_0000

  /** What the bounce buffer takes in one transfer. */
  predicate Fits(len: nat) { 0 < len <= DMA_BUF_SIZE }

  /** One data transfer: its command argument, block size and length. */
  datatype Command = Command(arg: u32, blockSize: nat, len: nat)

  /** The range lies in the 17-bit address space. */
  predicate Inside(addr: int, len: nat) { 0 <= addr && addr + len <= ADDR_SPACE }

  function Bit(b: bool): nat { if b then 1 else 0 }

  /** R/W flag, function, block mode, op code, 17-bit address and 9-bit count. The address wraps at
      2^32, a multiple of the address space, so the integer stands for it. */
  function Argument(fn: nat, addr: int, isWrite: bool, block: bool, opCode: bool, count: nat): u32
    requires fn < 8
  {
    Bit(isWrite) * 0x8000_0000 + fn * 0x1000_0000 + Bit(block) * 0x0800_0000 + Bit(opCode) * 0x0400_0000
    + addr % ADDR_SPACE * 0x200 + count % 0x200
  }

  function CountOf(block: bool, len: nat): nat { if block then len / BLOCK else len % 0x200 }

  function CommandFor(fn: nat, addr: int, isWrite: bool, block: bool, len: nat): Command
    requires fn < 8
  {
    Command(Argument(fn, addr, isWrite, block, true, CountOf(block, len)), if block then BLOCK else len, len)
  }

  // What a card reads from the argument.

  function IsWriteIn(arg: u32): bool { arg / 0x8000_0000 == 1 }
  function FunctionIn(arg: u32): nat { arg / 0x1000_0000 % 8 }
  function IsBlockIn(arg: u32): bool { arg / 0x0800_0000 % 2 == 1 }
  function IncrementsIn(arg: u32): bool { arg / 0x0400_0000 % 2 == 1 }
  function AddressIn(arg: u32): nat { arg / 0x200 % 0x2_0000 }

  /** Blocks of 512 bytes, or bytes; in byte mode a count of 0 stands for 512. */
  function SizeIn(arg: u32): nat {
    var count := arg % 0x200;
    if IsBlockIn(arg) then count * 512 else if count == 0 then 512 else count
  }

  /** Where the card finds the i-th byte: at incrementing addresses, or all at the one given. */
  function PlaceIn(arg: u32, i: nat): nat { (AddressIn(arg) + if IncrementsIn(arg) then i else 0) % 0x2_0000 }

  /** The card's memory after it has stored these bytes, one after the other. */
  function StoredBy(w: seq<byte>, arg: u32, data: seq<byte>): (r: seq<byte>)
    requires |w| == 0x2_0000
    ensures |r| == |w|
  {
    if data == [] then w
    else StoredBy(w, arg, data[..|data| - 1])[PlaceIn(arg, |data| - 1) := data[|data| - 1]]
  }

  lemma {:induction false} StoredInPlace(w: seq<byte>, arg: u32, data: seq<byte>)
    requires |w| == 0x2_0000 && IncrementsIn(arg) && AddressIn(arg) + |data| <= 0x2_0000
    ensures StoredBy(w, arg, data) == Patch(w, AddressIn(arg), data)
  {
    if data != [] {
      var n := |data| - 1;
      StoredInPlace(w, arg, data[..n]);
      NextPlace(arg, n);
      PatchOneMore(w, AddressIn(arg), data);
    }
  }

  lemma NextPlace(arg: u32, i: nat)
    requires IncrementsIn(arg) && AddressIn(arg) + i < 0x2_0000
    ensures PlaceIn(arg, i) == AddressIn(arg) + i
  {
  }

  lemma PatchOneMore(w: seq<byte>, a: nat, data: seq<byte>)
    requires data != [] && a + |data| <= |w|
    ensures Patch(w, a, data[..|data| - 1])[a + |data| - 1 := data[|data| - 1]] == Patch(w, a, data)
  {
  }

  /** Positional fields of a number, high to low. */
  lemma Digits(w: nat, f: nat, b: nat, o: nat, a: nat, c: nat)
    requires w < 2 && f < 8 && b < 2 && o < 2 && a < ADDR_SPACE && c < 0x200
    ensures var n := w * 0x8000_0000 + f * 0x1000_0000 + b * 0x0800_0000 + o * 0x0400_0000 + a * 0x200 + c;
            && n / 0x8000_0000 == w && n / 0x1000_0000 % 8 == f && n / 0x0800_0000 % 2 == b
            && n / 0x0400_0000 % 2 == o && n / 0x200 % ADDR_SPACE == a && n % 0x200 == c
  {
    var n := w * 0x8000_0000 + f * 0x1000_0000 + b * 0x0800_0000 + o * 0x0400_0000 + a * 0x200 + c;
    assert n / 0x200 == w * 0x40_0000 + f * 0x8_0000 + b * 0x4_0000 + o * 0x2_0000 + a;
    assert n / 0x0400_0000 == w * 0x20 + f * 4 + b * 2 + o;
    assert n / 0x0800_0000 == w * 0x10 + f * 2 + b;
    assert n / 0x1000_0000 == w * 8 + f;
  }

  lemma ArgumentFields(fn: nat, addr: int, isWrite: bool, block: bool, opCode: bool, count: nat)
    requires fn < 8
    ensures var arg := Argument(fn, addr, isWrite, block, opCode, count);
            && IsWriteIn(arg) == isWrite && FunctionIn(arg) == fn && IsBlockIn(arg) == block
            && IncrementsIn(arg) == opCode && AddressIn(arg) == addr % ADDR_SPACE && arg % 0x200 == count % 0x200
  {
    Digits(Bit(isWrite), fn, Bit(block), Bit(opCode), addr % ADDR_SPACE, count % 0x200);
  }

  /** The argument decodes to its address, direction, function and size, at incrementing addresses. */
  lemma ArgumentDecodes(fn: nat, addr: int, isWrite: bool, block: bool, len: nat) returns (arg: u32)
    requires fn < 8 && 0 <= addr < ADDR_SPACE
    requires if block then len % BLOCK == 0 && 0 < len <= DMA_BUF_SIZE else 0 < len <= 512
    ensures arg == CommandFor(fn, addr, isWrite, block, len).arg
    ensures IsWriteIn(arg) == isWrite && FunctionIn(arg) == fn && IsBlockIn(arg) == block
    ensures IncrementsIn(arg) && AddressIn(arg) == addr && SizeIn(arg) == len
  {
    arg := CommandFor(fn, addr, isWrite, block, len).arg;
    ArgumentFields(fn, addr, isWrite, block, true, CountOf(block, len));
  }

  // ---------------------------------------------------------------------------------------------
  // Chunks

  /** Size of the next transfer of `len` bytes: up to eight whole blocks, then the rest in bytes. */
  function NextLen(len: nat): (n: nat)
    ensures len > 0 ==> 0 < n <= len
  {
    if len < BLOCK then len else if len / BLOCK > 8 then 8 * BLOCK else len / BLOCK * BLOCK
  }

  /** The commands of a chunked access. */
  function Commands(fn: nat, addr: int, isWrite: bool, len: nat): seq<Command>
    requires fn < 8
    decreases len
  {
    if len == 0 then []
    else
      var n := NextLen(len);
      [CommandFor(fn, addr, isWrite, len >= BLOCK, n)] + Commands(fn, addr + n, isWrite, len - n)
  }

  /** The commands cover `len` bytes from `addr` in order and without overlap: each starts where
      the one before ended, eight blocks of 512 while there are as many, then the whole blocks left, then
      the bytes left. */
  predicate Tiles(cs: seq<Command>, fn: nat, addr: int, isWrite: bool, len: nat)
    decreases |cs|
  {
    if cs == [] then len == 0
    else
      var arg, n := cs[0].arg, cs[0].len;
      && IsWriteIn(arg) == isWrite && FunctionIn(arg) == fn && IncrementsIn(arg) && AddressIn(arg) == addr
      && SizeIn(arg) == n && n <= len
      && (if IsBlockIn(arg) then
            cs[0].blockSize == 512 && len >= 512 && n == if len >= 4096 then 4096 else len / 512 * 512
          else cs[0].blockSize == n && n == len < 512)
      && Tiles(cs[1..], fn, addr + n, isWrite, len - n)
  }

  lemma {:induction false} CommandsTile(fn: nat, addr: int, isWrite: bool, len: nat)
    requires fn < 8 && 0 <= addr && addr + len <= ADDR_SPACE
    ensures Tiles(Commands(fn, addr, isWrite, len), fn, addr, isWrite, len)
    decreases len
  {
    if len > 0 {
      var n, rest := NextLen(len), Commands(fn, addr + NextLen(len), isWrite, len - NextLen(len));
      CommandsTile(fn, addr + n, isWrite, len - n);
      FirstTiles(fn, addr, isWrite, len, rest);
    }
  }

  lemma FirstTiles(fn: nat, addr: int, isWrite: bool, len: nat, rest: seq<Command>)
    requires fn < 8 && 0 <= addr && addr + len <= ADDR_SPACE && len > 0
    requires var n := NextLen(len); Tiles(rest, fn, addr + n, isWrite, len - n) && (n == len < BLOCK ==> rest == [])
    ensures Tiles([CommandFor(fn, addr, isWrite, len >= BLOCK, NextLen(len))] + rest, fn, addr, isWrite, len)
  {
    var n := NextLen(len);
    var arg := ArgumentDecodes(fn, addr, isWrite, len >= BLOCK, n);
    var c := CommandFor(fn, addr, isWrite, len >= BLOCK, n);
    assert ([c] + rest)[1..] == rest;
  }

  // ---------------------------------------------------------------------------------------------
  // The link and the access loops

  lemma PatchPatch(w: seq<byte>, a: nat, x: seq<byte>, y: seq<byte>)
    requires a + |x| + |y| <= |w|
    ensures Patch(Patch(w, a, x), a + |x|, y) == Patch(w, a, x + y)
  {
  }

  /** A length that the mode can express: whole blocks, or at most 512 bytes. */
  predicate Whole(block: bool, len: nat) { if block then len % 512 == 0 else len <= 512 }

  /** Bytes found at incrementing addresses are those of the range. */
  lemma ReadInPlace(w: seq<byte>, arg: u32, addr: nat, got: seq<byte>)
    requires |w| == ADDR_SPACE && addr + |got| <= ADDR_SPACE && IncrementsIn(arg) && AddressIn(arg) == addr
    requires forall i :: 0 <= i < |got| ==> got[i] == w[PlaceIn(arg, i)]
    ensures got == w[addr..addr + |got|]
  {
    assert forall i :: 0 <= i < |got| ==> PlaceIn(arg, i) == addr + i;
  }

  /** The link with its slave, a card that does what the argument of a command says. `window` is the
      memory of the function addressed, `fails` says which of the transfers fail and `moves` how many
      bytes a failing one has moved; `log` holds those that succeeded. */
  class Link {
    const fails: nat -> bool
    const moves: nat -> nat
    var window: seq<byte>
    var attempts: nat
    var log: seq<Command>

    ghost predicate Valid()
      reads this
    {
      |window| == ADDR_SPACE
    }

    constructor (window: seq<byte>, fails: nat -> bool, moves: nat -> nat)
      requires |window| == ADDR_SPACE
      ensures Valid() && log == [] && this.window == window
    {
      this.window, this.fails, this.moves, attempts, log := window, fails, moves, 0, [];
    }

    /** The transfers after the `from`-th, up to the `to`-th, all succeeded. */
    ghost predicate AllPassed(from: nat, to: nat) { from <= to && forall k :: from < k <= to ==> !fails(k) }

    /** How many of `len` bytes the next transfer moves: none when it is refused, all when it
        succeeds. */
    ghost function Moved(len: nat): (n: nat)
      reads this
      ensures n <= len && (Fits(len) && !fails(attempts + 1) ==> n == len)
    {
      if !Fits(len) then 0 else if !fails(attempts + 1) || moves(attempts + 1) > len then len else moves(attempts + 1)
    }

    /** Issues one command, and says with which argument. */
    method Issue(fn: nat, addr: int, isWrite: bool, block: bool, len: nat) returns (ok: bool, arg: u32)
      requires fn < 8
      modifies this`attempts, this`log
      ensures ok == (Fits(len) && !fails(old(attempts) + 1))
      ensures attempts == old(attempts) + if Fits(len) then 1 else 0
      ensures Fits(len) ==> arg == CommandFor(fn, addr, isWrite, block, len).arg
      ensures log == old(log) + if ok then [CommandFor(fn, addr, isWrite, block, len)] else []
    {
      if len == 0 || len > DMA_BUF_SIZE { return false, 0; }
      attempts := attempts + 1;
      ok := !fails(attempts);
      var count := if block then len / BLOCK else len % 0x200;
      arg := Argument(fn, addr, isWrite, block, true, count);
      if ok {
        log := log + [Command(arg, if block then BLOCK else len, len)];
      }
    }

    method Cmd53Read(fn: nat, addr: int, block: bool, buf: array<byte>, at: nat, len: nat) returns (ok: bool)
      requires Valid() && fn < 8 && at + len <= buf.Length
      modifies this`attempts, this`log, buf
      ensures ok == (Fits(len) && !fails(old(attempts) + 1)) && attempts == old(attempts) + if Fits(len) then 1 else 0
      ensures log == old(log) + if ok then [CommandFor(fn, addr, false, block, len)] else []
      ensures buf[..at] == old(buf[..at]) && buf[at + len..] == old(buf[at + len..])
      ensures Inside(addr, len) && Whole(block, len) ==>
                var n := old(Moved(len)); buf[at..at + n] == window[addr..addr + n]
    {
      var moved := MovedBytes(len);
      var arg;
      ok, arg := Issue(fn, addr, false, block, len);
      SlaveSends(arg, buf, at, moved);
      if Fits(len) && Inside(addr, len) && Whole(block, len) {
        ghost var a := ArgumentDecodes(fn, addr, false, block, len);
        ReadInPlace(window, arg, addr, buf[at..at + moved]);
      }
    }

    /** The slave sends what the argument names, up to `n` bytes, into the buffer. */
    method SlaveSends(arg: u32, buf: array<byte>, at: nat, n: nat)
      requires Valid() && at + n <= buf.Length
      modifies buf
      ensures buf[..at] == old(buf[..at]) && buf[at + n..] == old(buf[at + n..])
      ensures !IsWriteIn(arg) && n <= SizeIn(arg) ==> forall i :: 0 <= i < n ==> buf[at + i] == window[PlaceIn(arg, i)]
    {
      var moved := n;
      if IsWriteIn(arg) {
        moved := 0;
      } else if moved > SizeIn(arg) {
        moved := SizeIn(arg);
      }
      forall i | 0 <= i < moved { buf[at + i] := window[PlaceIn(arg, i)]; }
    }

    method Cmd53Write(fn: nat, addr: int, block: bool, data: seq<byte>) returns (ok: bool)
      requires Valid() && fn < 8 && Inside(addr, |data|) && Whole(block, |data|)
      modifies this
      ensures ok == (Fits(|data|) && !fails(old(attempts) + 1))
              && attempts == old(attempts) + if Fits(|data|) then 1 else 0
      ensures Valid() && log == old(log) + if ok then [CommandFor(fn, addr, true, block, |data|)] else []
      ensures window == Patch(old(window), addr, data[..old(Moved(|data|))])
    {
      var moved := MovedBytes(|data|);
      var arg;
      ok, arg := Issue(fn, addr, true, block, |data|);
      if Fits(|data|) {
        ghost var a := ArgumentDecodes(fn, addr, true, block, |data|);
        StoredInPlace(window, arg, data[..moved]);
      } else {
        assert Patch(window, addr, data[..0]) == window;
      }
      if !IsWriteIn(arg) {
        moved := 0;
      } else if moved > SizeIn(arg) {
        moved := SizeIn(arg);
      }
      window := StoredBy(window, arg, data[..moved]);
    }

    method MovedBytes(len: nat) returns (n: nat)
      ensures n == Moved(len)
    {
      if len == 0 || len > DMA_BUF_SIZE {
        n := 0;
      } else if !fails(attempts + 1) || moves(attempts + 1) > len {
        n := len;
      } else {
        n := moves(attempts + 1);
      }
    }
  }

  /** The size both access loops compute for their next transfer. */
  method ChunkSize(len: nat) returns (chunk: nat)
    requires len > 0
    ensures chunk == NextLen(len)
  {
    if len >= BLOCK {
      var blocks := (len + BLOCK - 1) / BLOCK;
      if blocks > DMA_BUF_SIZE / BLOCK {
        blocks := DMA_BUF_SIZE / BLOCK;
      }
      chunk := blocks * BLOCK;
      if chunk > len {
        chunk := len / BLOCK * BLOCK;
      }
    } else {
      chunk := len;
    }
  }

  /** The log when the rest of an access is still to come. */
  function LogAfter(log: seq<Command>, fn: nat, addr: int, isWrite: bool, len: nat): seq<Command>
    requires fn < 8
  {
    log + Commands(fn, addr, isWrite, len)
  }

  lemma CommandsStep(fn: nat, addr: int, isWrite: bool, len: nat, n: nat, log: seq<Command>)
    requires fn < 8 && len > 0 && n == NextLen(len)
    ensures LogAfter(log, fn, addr, isWrite, len)
         == LogAfter(log + [CommandFor(fn, addr, isWrite, len >= BLOCK, n)], fn, addr + n, isWrite, len - n)
  {
    var c, rest := CommandFor(fn, addr, isWrite, len >= BLOCK, n), Commands(fn, addr + n, isWrite, len - n);
    assert (log + [c]) + rest == log + ([c] + rest);
  }

  /** One transfer of a read. */
  method ReadChunk(link: Link, fn: nat, addr: int, buf: array<byte>, done: nat, len: nat) returns (ok: bool, chunk: nat)
    requires link.Valid() && fn < 8 && 0 < len && done + len <= buf.Length
    modifies link`attempts, link`log, buf
    ensures 0 < chunk <= len && buf[..done] == old(buf[..done]) && buf[done + chunk..] == old(buf[done + chunk..])
    ensures link.attempts == old(link.attempts) + 1 && ok == !link.fails(link.attempts)
    ensures ok && Inside(addr, len) ==> buf[done..done + chunk] == link.window[addr..addr + chunk]
    ensures ok ==>
              LogAfter(link.log, fn, addr + chunk, false, len - chunk) == LogAfter(old(link.log), fn, addr, false, len)
  {
    chunk := ChunkSize(len);
    CommandsStep(fn, addr, false, len, chunk, link.log);
    ok := link.Cmd53Read(fn, addr, len >= BLOCK, buf, done, chunk);
  }

  lemma Joined(x: seq<byte>, y: seq<byte>, xy: seq<byte>, w: seq<byte>, a: nat)
    requires a + |x| + |y| <= |w| && x == w[a..a + |x|] && y == w[a + |x|..a + |x| + |y|]
    requires |xy| == |x| + |y| && xy[..|x|] == x && xy[|x|..] == y
    ensures xy == w[a..a + |xy|]
  {
    assert xy == x + y;
  }

  /** Reads `len` bytes: block transfers while 512 or more are left, then byte transfers. */
  method ReadBytes(link: Link, fn: nat, addr: int, buf: array<byte>, len: nat) returns (ok: bool)
    requires link.Valid() && fn < 8 && len <= buf.Length
    modifies link`attempts, link`log, buf
    ensures ok && Inside(addr, len) ==> buf[..len] == link.window[addr..addr + len]
    ensures buf[len..] == old(buf[len..])
    ensures ok == link.AllPassed(old(link.attempts), link.attempts) && old(link.attempts) <= link.attempts
    ensures ok ==> link.log == LogAfter(old(link.log), fn, addr, false, len)
  {
    var done, at, left := 0, addr, len;
    while left > 0
      invariant done + left == len && at == addr + done && link.Valid()
                && link.AllPassed(old(link.attempts), link.attempts)
      invariant Inside(addr, len) ==> buf[..done] == link.window[addr..at]
      invariant buf[len..] == old(buf[len..])
      invariant LogAfter(link.log, fn, at, false, left) == LogAfter(old(link.log), fn, addr, false, len)
    {
      var chunk;
      ok, chunk := ReadChunk(link, fn, at, buf, done, left);
      if !ok { return; }
      if Inside(addr, len) {
        Joined(buf[..done], buf[done..done + chunk], buf[..done + chunk], link.window, addr);
      }
      done, at, left := done + chunk, at + chunk, left - chunk;
    }
    ok := true;
  }

  /** One transfer of a write. */
  method WriteChunk(link: Link, fn: nat, addr: int, data: seq<byte>) returns (ok: bool, chunk: nat, ghost stored: nat)
    requires link.Valid() && fn < 8 && data != [] && Inside(addr, |data|)
    modifies link
    ensures link.Valid() && 0 < chunk <= |data| && stored <= chunk && (ok ==> stored == chunk)
    ensures link.attempts == old(link.attempts) + 1 && ok == !link.fails(link.attempts)
    ensures link.window == Patch(old(link.window), addr, data[..stored])
    ensures ok ==>
              LogAfter(link.log, fn, addr + chunk, true, |data| - chunk)
              == LogAfter(old(link.log), fn, addr, true, |data|)
  {
    chunk := ChunkSize(|data|);
    CommandsStep(fn, addr, true, |data|, chunk, link.log);
    stored := link.Moved(chunk);
    assert data[..chunk][..stored] == data[..stored];
    ok := link.Cmd53Write(fn, addr, |data| >= BLOCK, data[..chunk]);
  }

  /** The next transfer of a write that has stored the first `stored` bytes of `data` over `w`. */
  method WriteNext(link: Link, fn: nat, at: int, left: seq<byte>, ghost w: seq<byte>, ghost addr: nat,
                   ghost data: seq<byte>, ghost stored: nat)
    returns (ok: bool, chunk: nat, ghost now: nat)
    requires link.Valid() && fn < 8 && addr + |data| <= |w| && |w| == ADDR_SPACE
    requires stored < |data| && left == data[stored..] && at == addr + stored
             && link.window == Patch(w, addr, data[..stored])
    modifies link
    ensures link.Valid() && 0 < chunk <= |left| && stored <= now <= stored + chunk && (ok ==> now == stored + chunk)
    ensures link.attempts == old(link.attempts) + 1 && ok == !link.fails(link.attempts)
    ensures link.window == Patch(w, addr, data[..now])
    ensures ok ==>
              LogAfter(link.log, fn, at + chunk, true, |left| - chunk) == LogAfter(old(link.log), fn, at, true, |left|)
  {
    ghost var more;
    ok, chunk, more := WriteChunk(link, fn, at, left);
    PatchMore(w, addr, data, stored, more);
    now := stored + more;
  }

  /** Writes the data: block transfers while 512 or more bytes are left, then byte transfers. What
      is stored is a first part of the data, and all of it exactly when no transfer failed. */
  method WriteBytes(link: Link, fn: nat, addr: int, data: seq<byte>) returns (ok: bool, ghost stored: nat)
    requires link.Valid() && fn < 8 && Inside(addr, |data|)
    modifies link
    ensures link.Valid()
    ensures ok == link.AllPassed(old(link.attempts), link.attempts) && old(link.attempts) <= link.attempts
    ensures stored <= |data| && link.window == Patch(old(link.window), addr, data[..stored])
    ensures ok ==> stored == |data| && link.log == LogAfter(old(link.log), fn, addr, true, |data|)
  {
    var at, left := addr, data;
    ghost var w := link.window;
    stored := 0;
    assert Patch(w, addr, []) == w;
    while left != []
      invariant link.Valid() && stored + |left| == |data| && left == data[stored..] && at == addr + stored
      invariant link.AllPassed(old(link.attempts), link.attempts)
      invariant link.window == Patch(w, addr, data[..stored])
      invariant LogAfter(link.log, fn, at, true, |left|) == LogAfter(old(link.log), fn, addr, true, |data|)
      decreases |left|
    {
      var chunk;
      ok, chunk, stored := WriteNext(link, fn, at, left, w, addr, data, stored);
      if !ok { return; }
      at, left := at + chunk, left[chunk..];
    }
    ok := true;
  }

  lemma PatchMore(w: seq<byte>, a: nat, data: seq<byte>, n: nat, more: nat)
    requires a + |data| <= |w| && n + more <= |data|
    ensures Patch(Patch(w, a, data[..n]), a + n, data[n..][..more]) == Patch(w, a, data[..n + more])
  {
    PatchPatch(w, a, data[..n], data[n..][..more]);
    assert data[..n + more] == data[..n] + data[n..][..more];
  }

  /** The commands of a drain: stretches of up to one frame buffer. */
  function DrainCommands(addr: int, len: nat): seq<Command>
    decreases len
  {
    if len == 0 then []
    else
      var n := if len > FRAME_BUF_SIZE then FRAME_BUF_SIZE else len;
      Commands(1, addr, false, n) + DrainCommands(addr + n, len - n)
  }

  /** Reads and throws away everything the slave has, through the frame buffer. */
  method DrainRxBytes(link: Link, frameBuf: array<byte>, totalLen: nat) returns (ok: bool)
    requires link.Valid() && frameBuf.Length == FRAME_BUF_SIZE
    modifies link`attempts, link`log, frameBuf
    ensures ok == link.AllPassed(old(link.attempts), link.attempts) && old(link.attempts) <= link.attempts
    ensures ok ==> link.log == old(link.log) + DrainCommands(END_ADDR - totalLen, totalLen)
  {
    var addr, left := END_ADDR - totalLen, totalLen;
    ghost var goal := link.log + DrainCommands(addr, left);
    while left > 0
      invariant addr + left == END_ADDR && link.Valid() && link.AllPassed(old(link.attempts), link.attempts)
      invariant left >= 0 && link.log + DrainCommands(addr, left) == goal
    {
      var chunk := left;
      if chunk > FRAME_BUF_SIZE {
        chunk := FRAME_BUF_SIZE;
      }
      DrainStep(addr, left, chunk, link.log);
      ok := ReadBytes(link, 1, addr, frameBuf, chunk);
      if !ok { return; }
      addr, left := addr + chunk, left - chunk;
    }
    ok := true;
  }

  lemma DrainStep(addr: int, len: nat, n: nat, log: seq<Command>)
    requires len > 0 && n == if len > FRAME_BUF_SIZE then FRAME_BUF_SIZE else len
    ensures log + DrainCommands(addr, len) == (log + Commands(1, addr, false, n)) + DrainCommands(addr + n, len - n)
  {
  }

  /** Consecutive stretches, each tiled. */
  predicate DrainTiles(parts: seq<seq<Command>>, addr: int, len: nat)
    decreases |parts|
  {
    if parts == [] then len == 0
    else exists n {:trigger Tiles(parts[0], 1, addr, false, n)} ::
      0 < n <= len && n <= FRAME_BUF_SIZE && Tiles(parts[0], 1, addr, false, n)
      && DrainTiles(parts[1..], addr + n, len - n)
  }

  function Flatten(parts: seq<seq<Command>>): seq<Command> {
    if parts == [] then [] else parts[0] + Flatten(parts[1..])
  }

  /** A drain tiles its whole range. */
  lemma {:induction false} DrainCommandsTile(addr: int, len: nat) returns (parts: seq<seq<Command>>)
    requires Inside(addr, len)
    ensures Flatten(parts) == DrainCommands(addr, len) && DrainTiles(parts, addr, len)
    decreases len
  {
    if len == 0 {
      return [];
    }
    var n := if len > FRAME_BUF_SIZE then FRAME_BUF_SIZE else len;
    var rest := DrainCommandsTile(addr + n, len - n);
    CommandsTile(1, addr, false, n);
    parts := [Commands(1, addr, false, n)] + rest;
    assert parts[1..] == rest;
  }
}
