/** `sys_write`: from a buffer of the caller to the console, four bytes at a time. */
module ConsoleOutput {
  import opened Common
  import opened Decimal

  const LECTURA := 0
  const ESCRIPTURA := 1
  const TAMWRITE := 4

  /** `check_fd` */
  function CheckFd(fd: int, permissions: int): int {
    if fd != 1 && fd != 0 then -EBADF
    else if permissions != ESCRIPTURA && fd == 1 then -EACCES
    else if permissions != LECTURA && fd == 0 then -EACCES
    else 0
  }

  /** `copy_from_user`: double words while more than four bytes are left, then bytes.  It copies exactly `size`
      bytes, for every size, and nothing for a negative one. */
  method CopyFromUser(start: array<Byte>, p: nat, dest: array<Byte>, size: int) returns (r: int)
    requires start != dest && (size > 0 ==> p + size <= start.Length && size <= dest.Length)
    modifies dest
    ensures r == 0
    ensures size <= 0 ==> dest[..] == old(dest[..])
    ensures size > 0 ==> dest[..] == start[p..p + size] + old(dest[..])[size..]
  {
    var o, left := 0, size;
    while left > 4
      invariant 0 <= o && o + left == size && (size > 0 ==> left > 0) && (size <= 0 ==> o == 0)
      invariant forall k | 0 <= k < dest.Length :: dest[k] == if k < o then start[p + k] else old(dest[k])
    {
      CopyWord(start, p + o, dest, o);
      o := o + 4;
      left := left - 4;
    }
    while left > 0
      invariant 0 <= o && o + left == size && (size > 0 ==> left >= 0) && (size <= 0 ==> o == 0)
      invariant forall k | 0 <= k < dest.Length :: dest[k] == if k < o then start[p + k] else old(dest[k])
    {
      dest[o] := start[p + o];
      o := o + 1;
      left := left - 1;
    }
    r := 0;
  }

  /** `*q++ = *p++` of one double word. */
  method CopyWord(start: array<Byte>, i: nat, dest: array<Byte>, o: nat)
    requires start != dest && i + 4 <= start.Length && o + 4 <= dest.Length
    modifies dest
    ensures forall k | 0 <= k < dest.Length :: dest[k] == if o <= k < o + 4 then start[i + (k - o)] else old(dest[k])
  {
    dest[o], dest[o + 1], dest[o + 2], dest[o + 3] := start[i], start[i + 1], start[i + 2], start[i + 3];
  }

  class Console {
    /** The characters `printc` has put on the screen. */
    var output: seq<Byte>

    constructor ()
      ensures output == []
    {
      output := [];
    }

    /** `sys_write_console` */
    method SysWriteConsole(buffer: array<Byte>, size: int) returns (r: int)
      requires 0 <= size <= buffer.Length
      modifies this`output
      ensures output == old(output) + buffer[..size] && r == size
    {
      var i := 0;
      while i < size
        invariant 0 <= i <= size && output == old(output) + buffer[..i]
      {
        output := output + [buffer[i]];
        i := i + 1;
      }
      r := size;
    }

    /** `sys_write`: an error changes nothing; otherwise exactly the bytes of the buffer go to the console, in
        order, and the result is their number. */
    method SysWrite(fd: int, buffer: array?<Byte>, size: int) returns (ret: int)
      requires buffer != null && size > 0 ==> size <= buffer.Length
      modifies this`output
      ensures fd == 0 ==> ret == -EACCES
      ensures fd != 0 && fd != 1 ==> ret == -EBADF
      ensures fd == 1 && buffer == null ==> ret == -EFAULT
      ensures fd == 1 && buffer != null && size < 0 ==> ret == -EINVAL
      ensures fd == 1 && buffer != null && size >= 0 ==> ret == size
      ensures output == if ret > 0 then old(output) + buffer[..size] else old(output)
    {
      if CheckFd(fd, ESCRIPTURA) != 0 {
        return CheckFd(fd, ESCRIPTURA);
      }
      if buffer == null {
        return -EFAULT;
      }
      if size < 0 {
        return -EINVAL;
      }
      if size == 0 {
        return 0;
      }
      ret := 0;
      var buff := new Byte[TAMWRITE];
      var left := size;
      while left >= TAMWRITE
        invariant 0 <= left && ret + left == size && ret >= 0
        invariant output == old(output) + buffer[..ret]
      {
        ret := Chunk(buffer, ret, buff, TAMWRITE);
        left := left - TAMWRITE;
      }
      ret := Chunk(buffer, ret, buff, left);
    }

    /** One chunk of n bytes from position ret on; the new position. */
    method Chunk(buffer: array<Byte>, ret: nat, buff: array<Byte>, n: nat) returns (r: nat)
      requires buffer != buff && ret + n <= buffer.Length && n <= buff.Length
      modifies this`output, buff
      ensures output == old(output) + buffer[ret..ret + n] && r == ret + n
    {
      var ok := CopyFromUser(buffer, ret, buff, n);
      assert buff[..n] == buffer[ret..ret + n];
      var written := SysWriteConsole(buff, n);
      r := ret + written;
    }

    /** How user programs print a number: `itoa`, then `write` of `strlen` characters.  The console shows the
        decimal digits of the number and nothing else. */
    method PrintNumber(a: int, b: array<Byte>) returns (r: int)
      requires a >= 0 && |Text(a)| < b.Length
      modifies this`output, b
      ensures output == old(output) + Text(a) && r == |Text(a)|
    {
      Itoa(a, b);
      TextValue(a);
      assert b[..][|Text(a)|] == 0;
      assert forall k | 0 <= k < |Text(a)| :: b[..][k] == Text(a)[k];
      var n := Strlen(b);
      r := SysWrite(1, b, n);
    }
  }
}
