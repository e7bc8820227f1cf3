/** Path resolution of the file service: a virtual path is stored under
    the service's directory by the lowercase Base16 spelling (section 8 of
    RFC 4648) of its MD5 digest (RFC 1321). The digest itself is not
    computed: it is a function given to the model. */
module Files {
  import opened Base

  /** An MD5 digest: sixteen bytes. */
  type Digest = d: seq<Byte> | |d| == 16 witness [0, 0, 0, 0, 0, 0, 0, 0, 0, 0, 0, 0, 0, 0, 0, 0]

  datatype File = File(virtualPath: string, realPath: string, id: string)

  // ------------------------------------------------------------ Base16

  const HexAlphabet: string := "0123456789abcdef"

  predicate IsHexDigit(c: char)
  {
    c in HexAlphabet
  }

  function HexValue(c: char): (v: nat)
    ensures v < 16
  {
    if '0' <= c <= '9' then (c - '0') as nat
    else if 'a' <= c <= 'f' then (c - 'a') as nat + 10
    else 0
  }

  /** hex.EncodeToString: two lowercase digits per byte, high nibble first. */
  function Hex(bs: seq<Byte>): (s: string)
    ensures |s| == 2 * |bs|
    ensures forall i :: 0 <= i < |s| ==> IsHexDigit(s[i])
  {
    if bs == [] then ""
    else
      Hex(bs[..|bs| - 1]) + HexByte(bs[|bs| - 1])
  }

  /** The two digits of one byte. */
  function HexByte(b: Byte): (s: string)
    ensures |s| == 2 && IsHexDigit(s[0]) && IsHexDigit(s[1])
  {
    [HexAlphabet[b / 16], HexAlphabet[b % 16]]
  }

  /** hex.DecodeString on a string of hex digit pairs. */
  function Unhex(s: string): seq<Byte>
  {
    if |s| < 2 then []
    else Unhex(s[..|s| - 2]) + [HexValue(s[|s| - 2]) * 16 + HexValue(s[|s| - 1])]
  }

  lemma HexValueOf(v: nat)
    requires v < 16
    ensures HexValue(HexAlphabet[v]) == v
  {
    if v < 10 {
      assert HexAlphabet[v] == '0' + v as char;
    } else {
      assert HexAlphabet[v] == 'a' + (v - 10) as char;
    }
  }

  /** Decoding the hex spelling gives the bytes back. */
  lemma {:induction false} UnhexHex(bs: seq<Byte>)
    ensures Unhex(Hex(bs)) == bs
  {
    if bs != [] {
      var pre := bs[..|bs| - 1];
      var b := bs[|bs| - 1];
      calc {
        Unhex(Hex(bs));
        Unhex(Hex(pre) + HexByte(b));
        { UnhexSnoc(Hex(pre), b); }
        Unhex(Hex(pre)) + [b];
        { UnhexHex(pre); }
        pre + [b];
      }
      assert pre + [b] == bs;
    }
  }

  lemma UnhexSnoc(pre: string, b: Byte)
    ensures Unhex(pre + HexByte(b)) == Unhex(pre) + [b]
  {
    var s := pre + HexByte(b);
    assert s[..|s| - 2] == pre;
    assert s[|s| - 2] == HexAlphabet[b / 16] && s[|s| - 1] == HexAlphabet[b % 16];
    HexValueOf(b / 16);
    HexValueOf(b % 16);
  }

  // --------------------------------------------------- filepath.Join/Clean

  /** The element stack of a lexical clean: "" and "." vanish, ".." removes
      the last real element, is dropped at the root of an absolute path and
      is kept at the front of a relative one. */
  function Reduce(elems: seq<string>, rooted: bool): (out: seq<string>)
    ensures forall i :: 0 <= i < |out| ==> out[i] != "" && out[i] != "." && out[i] in elems
  {
    if elems == [] then []
    else
      var out := Reduce(elems[..|elems| - 1], rooted);
      var e := elems[|elems| - 1];
      if e == "" || e == "." then out
      else if e == ".." then
        (if out != [] && out[|out| - 1] != ".." then out[..|out| - 1]
         else if rooted then out
         else out + [".."])
      else out + [e]
  }

  /** filepath.Clean on slash-separated paths: the shortest lexically
      equivalent path, "." when nothing remains. */
  function Clean(p: string): string
  {
    var rooted := p != [] && p[0] == '/';
    Spell(rooted, Reduce(Split(p, '/'), rooted))
  }

  /** A cleaned element stack written out. */
  function Spell(rooted: bool, out: seq<string>): string
  {
    var s := (if rooted then "/" else "") + Join(out, "/");
    if s == "" then "." else s
  }

  /** filepath.Join(dir, name) for a non-empty name: empty elements are
      ignored and the joined path is cleaned. */
  function JoinPath(dir: string, name: string): string
  {
    if dir == "" then Clean(name) else Clean(dir + "/" + name)
  }

  /** What a cleaned directory contributes in front of a name under it. */
  function DirPrefix(c: string): string
  {
    if c == "." then "" else if c == "/" then c else c + "/"
  }

  /** A name that the clean leaves untouched as a single element. */
  predicate PlainName(name: string)
  {
    name != "" && name != "." && name != ".." && '/' !in name
  }

  lemma {:induction false} JoinSnoc(parts: seq<string>, sep: string, last: string)
    requires parts != []
    ensures Join(parts + [last], sep) == Join(parts, sep) + sep + last
  {
    if |parts| > 1 {
      assert (parts + [last])[1..] == parts[1..] + [last];
      JoinSnoc(parts[1..], sep, last);
    }
  }

  /** Joining a plain name to a directory puts the name directly under
      the cleaned directory, whatever the directory spells. */
  lemma JoinUnder(dir: string, name: string)
    requires PlainName(name)
    ensures JoinPath(dir, name) == DirPrefix(Clean(dir)) + name
  {
    SplitNoSeparator(name, '/');
    if dir == "" {
      assert Reduce([name], false) == [name] by {
        assert [name][..0] == [];
      }
    } else {
      JoinUnderDir(dir, name);
    }
  }

  lemma JoinUnderDir(dir: string, name: string)
    requires PlainName(name) && dir != ""
    ensures Clean(dir + "/" + name) == DirPrefix(Clean(dir)) + name
  {
    var rooted := dir[0] == '/';
    var p := dir + "/" + name;
    assert p[0] == dir[0];
    var elems := Split(dir, '/');
    assert Split(p, '/') == elems + [name] by {
      SplitNoSeparator(name, '/');
      SplitAppend(dir, '/', name);
    }
    var out := Reduce(elems, rooted);
    assert Reduce(elems + [name], rooted) == out + [name] by {
      assert (elems + [name])[..|elems|] == elems;
    }
    if out != [] {
      assert out[0] in elems;
    }
    SpellSnoc(rooted, out, name);
  }

  /** Spelling one more plain element puts it under the spelled stack. */
  lemma SpellSnoc(rooted: bool, out: seq<string>, name: string)
    requires PlainName(name)
    requires out != [] ==> out[0] != "" && out[0] != "." && '/' !in out[0]
    ensures Spell(rooted, out + [name]) == DirPrefix(Spell(rooted, out)) + name
  {
    if out == [] {
      assert Join(out + [name], "/") == name;
    } else {
      JoinSnoc(out, "/", name);
      JoinHead(out, "/");
      var c := (if rooted then "/" else "") + Join(out, "/");
      assert c != "" && c != "." && c != "/" by {
        if rooted {
          assert |c| >= 2;
        } else {
          assert c[..|out[0]|] == out[0];
        }
      }
    }
  }

  /** A join starts with its first part. */
  lemma JoinHead(parts: seq<string>, sep: string)
    requires parts != []
    ensures |Join(parts, sep)| >= |parts[0]| && Join(parts, sep)[..|parts[0]|] == parts[0]
  {
  }

  /** A non-empty hex spelling longer than ".." is a plain name. */
  lemma HexIsPlain(h: string)
    requires |h| > 2 && forall i :: 0 <= i < |h| ==> IsHexDigit(h[i])
    ensures PlainName(h)
  {
    assert '/' !in HexAlphabet;
    assert forall i :: 0 <= i < |h| ==> h[i] != '/';
  }

  // ------------------------------------------------------------- Resolve

  /** FileService.Resolve: the id is the hex MD5 of the virtual path and
      the real path is the service directory joined with the id. */
  function Resolve(dir: string, md5: string -> Digest, path: string): (f: File)
    ensures f.virtualPath == path
    ensures |f.id| == 32 && forall i :: 0 <= i < |f.id| ==> IsHexDigit(f.id[i])
  {
    var h := Hex(md5(path));
    File(path, JoinPath(dir, h), h)
  }

  /** The id spells the digest, and the real path lies directly under the
      service directory, whatever the virtual path contains. */
  lemma ResolveLayout(dir: string, md5: string -> Digest, path: string)
    ensures Unhex(Resolve(dir, md5, path).id) == md5(path)
    ensures Resolve(dir, md5, path).realPath == DirPrefix(Clean(dir)) + Resolve(dir, md5, path).id
  {
    var h := Hex(md5(path));
    UnhexHex(md5(path));
    HexIsPlain(h);
    JoinUnder(dir, h);
  }
}
