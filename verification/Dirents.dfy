/** Directory records: the first 96 bytes of a page, read and patched in place (mctools.h). */
module Dirents {
  import opened Bytes

  const DIRENT_SIZE := 96
  const NAME_OFFSET := 64
  const NAME_SIZE := 32
  const MODE_EXISTS := 0x8000
  const MODE_DELETED := 0x7FFF

  type Dirent = d: seq<byte> | |d| == DIRENT_SIZE witness seq(96, _ => 0)

  /** The struct a page is cast to. */
  function RecordOf(page: Page): Dirent
    requires DIRENT_SIZE <= |page|
  {
    page[..DIRENT_SIZE]
  }

  function Mode(d: Dirent): nat { U16(d, 0) }
  function Length(d: Dirent): u32 { U32(d, 4) }
  function FirstCluster(d: Dirent): u32 { U32(d, 16) }
  function NameField(d: Dirent): seq<byte> { d[NAME_OFFSET..] }

  predicate Exists(d: Dirent) {
    Mode(d) / MODE_EXISTS % 2 == 1
  }

  /** The directory attribute, which the SDK calls sceMcFileAttrSubdir. */
  predicate IsDirectory(d: Dirent) {
    Mode(d) / 0x20 % 2 == 1
  }

  /** The characters of a name field up to its terminator, if it has one. */
  function CString(s: seq<byte>): (r: seq<byte>)
    ensures |r| <= |s| && 0 !in r
    ensures |r| < |s| ==> s[|r|] == 0
    ensures r == s[..|r|]
  {
    if s == [] || s[0] == 0 then [] else [s[0]] + CString(s[1..])
  }

  /** The part of a name that a lookup compares: its first 32 characters. */
  function Key(name: seq<byte>): seq<byte> {
    CString(name[..if |name| < NAME_SIZE then |name| else NAME_SIZE])
  }

  /** The name of a record. */
  function NameOf(d: Dirent): seq<byte> {
    CString(NameField(d))
  }

  /** strncmp(name, field, 32) == 0 */
  predicate Matches(name: seq<byte>, d: Dirent) {
    Key(name) == NameOf(d)
  }

  function WithLength(d: Dirent, length: u32): (r: Dirent)
    ensures Length(r) == length && Exists(r) == Exists(d)
    ensures Mode(r) == Mode(d) && FirstCluster(r) == FirstCluster(d) && NameField(r) == NameField(d)
  {
    assert U32(OfU32(length), 0) == length;
    Patch(d, 4, OfU32(length))
  }

  function WithMode(d: Dirent, mode: nat): (r: Dirent)
    requires mode < 0x1_0000
    ensures Mode(r) == mode && (Exists(r) <==> MODE_EXISTS <= mode)
    ensures Length(r) == Length(d) && FirstCluster(r) == FirstCluster(d) && NameField(r) == NameField(d)
  {
    assert U16(OfU16(mode), 0) == mode;
    Patch(d, 0, OfU16(mode))
  }

  /** strncpy of a name into the name field: cut at its terminator, padded with terminators. */
  function Padded(name: seq<byte>): (f: seq<byte>)
    ensures |f| == NAME_SIZE
    ensures CString(f) == Key(name)
  {
    var s := Key(name);
    var f := s + seq(NAME_SIZE - |s|, _ => 0);
    CStringOfPadded(s, NAME_SIZE - |s|);
    f
  }

  lemma {:induction false} CStringOfPadded(s: seq<byte>, n: nat)
    requires 0 !in s
    ensures CString(s + seq(n, _ => 0)) == s
  {
    var f := s + seq(n, _ => 0);
    if s != [] {
      CStringOfPadded(s[1..], n);
      assert f[1..] == s[1..] + seq(n, _ => 0);
    }
  }

  function WithName(d: Dirent, name: seq<byte>): (r: Dirent)
    ensures Mode(r) == Mode(d) && Length(r) == Length(d) && FirstCluster(r) == FirstCluster(d)
    ensures NameOf(r) == Key(name)
  {
    var r := Patch(d, NAME_OFFSET, Padded(name));
    assert NameField(r) == Padded(name);
    r
  }

  /** The fields of SCE_MC_dirent, in their order. */
  datatype Fields = Fields(mode: nat, unknown: seq<byte>, length: nat, created: seq<byte>, cluster: nat, dirEntry: seq<byte>,
                           modified: seq<byte>, attr: seq<byte>, unknown2: seq<byte>, name: seq<byte>)
  {
    predicate Fit() {
      && mode < 0x1_0000 && |unknown| == 2 && length < 0x1_0000_0000 && |created| == 8 && cluster < 0x1_0000_0000 && |dirEntry| == 4
      && |modified| == 8 && |attr| == 4 && |unknown2| == 28 && |name| == 32
    }

    function Written(): (d: Dirent)
      requires Fit()
      ensures |d| == 96
    {
      OfU16(mode) + unknown + OfU32(length) + created + OfU32(cluster) + dirEntry + modified + attr + unknown2 + name
    }
  }

  /** A page that starts with a record written field by field is read as those fields. */
  lemma FieldsAreRead(f: Fields, rest: seq<byte>)
    requires f.Fit()
    ensures RecordOf(f.Written() + rest) == f.Written()
    ensures var d := f.Written();
            && Mode(d) == f.mode && Length(d) == f.length && FirstCluster(d) == f.cluster && NameField(d) == f.name
            && (Exists(d) <==> f.mode >= 0x8000) && (IsDirectory(d) <==> f.mode / 0x20 % 2 == 1)
  {
    hide OfU16, OfU32, U16, U32;
    var d := f.Written();
    assert (d + rest)[..96] == d;
    WordsAnywhere(d, 0);
    WordsAnywhere(d, 4);
    WordsAnywhere(d, 16);
    assert d[0..2] == OfU16(f.mode)[0..2] && d[4..8] == OfU32(f.length)[0..4] && d[16..20] == OfU32(f.cluster)[0..4];
    WordsAnywhere(OfU16(f.mode), 0);
    WordsAnywhere(OfU32(f.length), 0);
    WordsAnywhere(OfU32(f.cluster), 0);
  }

  /** Changing the mode, the length or the name changes that field alone. */
  lemma ModeIsChanged(f: Fields, mode: nat)
    requires f.Fit() && mode < 0x1_0000
    ensures WithMode(f.Written(), mode) == f.(mode := mode).Written()
  {
    hide OfU16, OfU32, U16, U32;
    var tail := f.unknown + OfU32(f.length) + f.created + OfU32(f.cluster) + f.dirEntry + f.modified + f.attr + f.unknown2 + f.name;
    assert f.Written() == OfU16(f.mode) + tail && f.(mode := mode).Written() == OfU16(mode) + tail;
  }

  lemma LengthIsChanged(f: Fields, length: u32)
    requires f.Fit()
    ensures WithLength(f.Written(), length) == f.(length := length).Written()
  {
    hide OfU16, OfU32, U16, U32;
    var head, tail := OfU16(f.mode) + f.unknown, f.created + OfU32(f.cluster) + f.dirEntry + f.modified + f.attr + f.unknown2 + f.name;
    assert f.Written() == head + OfU32(f.length) + tail && f.(length := length).Written() == head + OfU32(length) + tail;
  }

  lemma NameIsChanged(f: Fields, name: seq<byte>)
    requires f.Fit()
    ensures WithName(f.Written(), name) == f.(name := Padded(name)).Written()
  {
    hide OfU16, OfU32, U16, U32, Padded;
    var head := OfU16(f.mode) + f.unknown + OfU32(f.length) + f.created + OfU32(f.cluster) + f.dirEntry + f.modified + f.attr + f.unknown2;
    assert f.Written() == head + f.name && f.(name := Padded(name)).Written() == head + Padded(name);
  }

  lemma {:induction false} CStringIs(s: seq<byte>, n: nat)
    requires n <= |s| && 0 !in s[..n] && (n < |s| ==> s[n] == 0)
    ensures CString(s) == s[..n]
  {
    if n > 0 {
      assert s[1..][..n - 1] == s[..n][1..] && s[0] in s[..n];
      CStringIs(s[1..], n - 1);
      assert s[..n] == [s[0]] + s[1..][..n - 1];
    }
  }

  /** What strncpy leaves in a name field of 32 characters. */
  lemma NameIsCopied(name: seq<byte>)
    requires 0 !in name
    ensures |name| <= 32 ==> Padded(name) == name + seq(32 - |name|, _ => 0)
    ensures 32 <= |name| ==> Padded(name) == name[..32]
  {
    if |name| <= 32 {
      assert name[..|name|] == name;
      CStringIs(name, |name|);
    } else {
      CStringIs(name[..32], 32);
    }
  }

  /** strncmp over 32 characters: the names agree up to the end of the one looked for, and there the record's ends as well. */
  lemma NameIsCompared(name: seq<byte>, d: Dirent)
    requires 0 !in name
    ensures |name| <= 32 ==> (Matches(name, d) <==> NameField(d)[..|name|] == name && (|name| < 32 ==> NameField(d)[|name|] == 0))
    ensures 32 <= |name| ==> (Matches(name, d) <==> NameField(d) == name[..32])
  {
    var n, field := if |name| <= 32 then |name| else 32, NameField(d);
    assert name[..n] == name || n == 32;
    CStringIs(name[..n], n);
    if Matches(name, d) {
      assert CString(field) == name[..n];
    }
    if field[..n] == name[..n] && (n < 32 ==> field[n] == 0) {
      CStringIs(field, n);
    }
  }
}
