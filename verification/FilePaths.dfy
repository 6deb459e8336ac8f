/**
 Paths in the file probes (fileop/fileop.bpf.c): fixed buffers of 256 bytes holding
 NUL-terminated strings, and the joining of a relative path to the path of the directory
 descriptor it was opened through.
 */
module FilePaths {
  import opened Common

  const MAX_PATH_SIZE := 256
  const SLASH: byte := 0x2f

  /** The string a buffer holds: everything before the first NUL. */
  function CStr(buf: bytes): bytes {
    if buf == [] || buf[0] == 0 then [] else [buf[0]] + CStr(buf[1..])
  }

  /** Strings never contain the terminator. */
  predicate IsString(s: bytes) {
    forall i :: 0 <= i < |s| ==> s[i] != 0
  }

  lemma {:induction false} CStrIs(buf: bytes, s: bytes)
    requires IsString(s) && s <= buf && (|s| == |buf| || buf[|s|] == 0)
    ensures CStr(buf) == s
  {
    if s != [] {
      assert s[1..] <= buf[1..];
      CStrIs(buf[1..], s[1..]);
      assert s == [s[0]] + s[1..];
    }
  }

  lemma {:induction false} CStrShape(buf: bytes)
    ensures var s := CStr(buf); IsString(s) && s <= buf && (|s| == |buf| || buf[|s|] == 0)
  {
    if buf != [] && buf[0] != 0 {
      CStrShape(buf[1..]);
      assert buf == [buf[0]] + buf[1..];
    }
  }

  function Take(s: bytes, n: nat): bytes {
    if |s| <= n then s else s[..n]
  }

  /** A base and the slash that follows it, unless it ends in one. */
  function WithSlash(base: bytes): bytes {
    if base == [] || base[|base| - 1] == SLASH then base else base + [SLASH]
  }

  /** The untruncated join: one slash between the two, unless the base already ends in one. */
  function Join(base: bytes, relative: bytes): bytes {
    WithSlash(base) + relative
  }

  /** What fits a path buffer. */
  function Cut(s: bytes): bytes {
    Take(s, MAX_PATH_SIZE - 1)
  }

  lemma TakeTake(a: bytes, b: bytes, n: nat)
    ensures Take(Take(a, n) + b, n) == Take(a + b, n)
    ensures Take(a + Take(b, n), n) == Take(a + b, n)
  {
    if |a| > n {
      assert (a[..n] + b)[..n] == a[..n] == (a + b)[..n];
    }
    if |b| > n {
      assert (a + b[..n])[..n] == (a + b)[..n];
    }
  }

  /** Cutting the parts first does not change what is left of the join. */
  lemma CutJoin(base: bytes, relative: bytes)
    requires base != []
    ensures Cut(Join(Cut(base), Cut(relative))) == Cut(Join(base, relative))
  {
    var n := MAX_PATH_SIZE - 1;
    if |base| <= n {
      TakeTake(WithSlash(base), relative, n);
    } else {
      assert Cut(Join(base, relative)) == base[..n];
      assert Cut(Join(base[..n], Cut(relative))) == base[..n];
    }
  }

  // ---------- the buffers ----------

  /** Copy a string behind what the buffer holds already, up to `room` bytes in all. */
  method CopyInto(dst: array<byte>, off: nat, room: nat, src: bytes) returns (end: nat)
    requires off <= room < dst.Length
    modifies dst
    ensures end <= room && dst[..end] == old(dst[..off]) + Take(CStr(src), room - off)
  {
    CStrShape(src);
    ghost var s := CStr(src);
    end := off;
    for i := 0 to |src|
      invariant end == off + i <= room && i <= |s|
      invariant dst[..end] == old(dst[..off]) + s[..i]
    {
      if end >= room {
        break;
      }
      if src[i] == 0 {
        break;
      }
      dst[end] := src[i];
      end := end + 1;
    }
  }

  method Terminate(dst: array<byte>, end: nat)
    requires end < dst.Length && IsString(dst[..end])
    modifies dst
    ensures CStr(dst[..]) == old(dst[..end])
  {
    dst[end] := 0;
    CStrIs(dst[..], dst[..end]);
  }

  lemma JoinFull(base: bytes, relative: bytes, room: nat)
    requires |base| >= room && IsString(base)
    ensures Take(Join(base, relative), room) == Take(base, room) && IsString(Take(base, room))
  {
  }

  lemma JoinRest(base: bytes, left: bytes, relative: bytes, room: nat)
    requires base != [] && left == WithSlash(base) && |left| <= room
    requires IsString(base) && IsString(relative)
    ensures left + Take(relative, room - |left|) == Take(Join(base, relative), room)
    ensures IsString(Take(Join(base, relative), room))
  {
    assert Join(base, relative) == left + relative;
  }

  method AddSlash(dst: array<byte>, off: nat) returns (end: nat)
    requires 0 < off < dst.Length
    modifies dst
    ensures off <= end <= off + 1 && end <= dst.Length && dst[..end] == WithSlash(old(dst[..off]))
  {
    ghost var base := dst[..off];
    assert base[|base| - 1] == dst[off - 1];
    end := off;
    if dst[off - 1] != SLASH {
      dst[off] := SLASH;
      end := off + 1;
      assert dst[..off] == base;
    }
  }

  method CopyBase(dst: array<byte>, size: nat, base: bytes) returns (off: nat, full: bool)
    requires 0 < size <= dst.Length
    modifies dst
    ensures full ==> |CStr(base)| >= size - 1 == off && dst[..off] == Take(CStr(base), size - 1)
    ensures !full ==>
              size > 1 && off <= size - 1 && (off == 0 <==> CStr(base) == []) && dst[..off] == WithSlash(CStr(base))
  {
    off := CopyInto(dst, 0, size - 1, base);
    assert dst[..off] == Take(CStr(base), size - 1);
    full := off >= size - 1;
    if full || off == 0 {
      return;
    }
    assert dst[..off] == CStr(base);
    off := AddSlash(dst, off);
  }

  /** Every write is inside the buffer, and the string left in it is the join, cut to what fits. */
  method JoinPaths(dst: array<byte>, size: nat, base: bytes, relative: bytes) returns (ok: bool)
    requires size <= dst.Length
    modifies dst
    ensures ok <==> size == 1 || (size > 1 && CStr(base) != [])
    ensures ok ==> CStr(dst[..]) == Take(Join(CStr(base), CStr(relative)), size - 1)
  {
    if size == 0 {
      return false;
    }
    ghost var b, r := CStr(base), CStr(relative);
    CStrShape(base);
    CStrShape(relative);
    var off, full := CopyBase(dst, size, base);
    if full {
      JoinFull(b, r, size - 1);
      Terminate(dst, off);
      return true;
    }
    if off == 0 {
      return false;
    }
    JoinRest(b, dst[..off], r, size - 1);
    var end := CopyInto(dst, off, size - 1, relative);
    Terminate(dst, end);
    ok := true;
  }

  // ---------- resolution through a directory descriptor ----------

  datatype FdKey = FdKey(tgid: nat, fd: nat)

  /** File descriptors are kept as unsigned 32-bit numbers. */
  function U32(x: int): nat {
    x % 0x1_0000_0000
  }

  /**
   The path an open refers to: absolute paths and paths relative to the working directory
   as they are, others joined to the path of a tracked descriptor.  `cut` is what a buffer
   does to a string; with no cutting this is the ideal path.
   */
  function Resolve(
      cut: bytes -> bytes, paths: map<FdKey, bytes>, tgid: nat, dirfd: int, user: Option<bytes>): Option<bytes> {
    if user.None? || cut(user.value) == [] then None else
      var path, key := cut(user.value), FdKey(tgid, U32(dirfd));
      if path[0] == SLASH || dirfd < 0 || key !in paths then Some(path)
      else if paths[key] == [] then None
      else Some(cut(Join(paths[key], path)))
  }

  function Strings(stored: map<FdKey, bytes>): map<FdKey, bytes> {
    map k | k in stored :: CStr(stored[k])
  }

  /** The same, in buffers. */
  method ResolveDirfdPath(dst: array<byte>, stored: map<FdKey, bytes>, tgid: nat, dirfd: int, user: Option<bytes>)
    returns (ok: bool)
    requires dst.Length == MAX_PATH_SIZE && (user.Some? ==> IsString(user.value))
    modifies dst
    ensures var r := Resolve(Cut, Strings(stored), tgid, dirfd, user);
            ok == r.Some? && (ok ==> CStr(dst[..]) == r.value)
  {
    if user.None? {
      return false;
    }
    CStrIs(user.value, user.value);
    var copied := CopyInto(dst, 0, MAX_PATH_SIZE - 1, user.value);
    assert dst[..copied] == Cut(user.value);
    if copied == 0 {
      return false;
    }
    Terminate(dst, copied);
    ghost var path := Cut(user.value);
    CStrShape(dst[..]);
    assert dst[..][0] == path[0] == dst[0];
    var key := FdKey(tgid, U32(dirfd));
    ghost var strings := Strings(stored);
    assert key in strings <==> key in stored;
    assert Resolve(Cut, strings, tgid, dirfd, user) ==
           if path[0] == SLASH || dirfd < 0 || key !in strings then Some(path)
           else if strings[key] == [] then None else Some(Cut(Join(strings[key], path)));
    if dst[0] == SLASH || dirfd < 0 || key !in stored {
      return true;
    }
    var relative := dst[..];
    ok := JoinPaths(dst, MAX_PATH_SIZE, stored[key], relative);
  }
}
