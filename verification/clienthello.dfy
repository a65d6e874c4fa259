// Reading the server name out of a TLS ClientHello, and the encoder it inverts
// (section 4.1.2 of RFC 8446, section 3 of RFC 6066).
module ClientHello {
  import opened Text

  type byte = x: int | 0 <= x < 256
  type bytes = seq<byte>

  function U16(hi: byte, lo: byte): nat {
    hi * 256 + lo
  }

  // --- What the parser computes -----------------------------------------------

  // What follows a vector with a one-byte or a two-byte length.
  function Skip8(p: bytes): Option<bytes> {
    if |p| < 1 || |p| - 1 < p[0] then None else Some(p[1 + p[0]..])
  }

  function Skip16(p: bytes): Option<bytes> {
    if |p| < 2 || |p| - 2 < U16(p[0], p[1]) then None else Some(p[2 + U16(p[0], p[1])..])
  }

  function Take16(p: bytes): Option<bytes> {
    if |p| < 2 || |p| - 2 < U16(p[0], p[1]) then None else Some(p[2..2 + U16(p[0], p[1])])
  }

  function ExtensionBlock(data: bytes): Option<bytes> {
    if |data| < 43 || data[5] != 1 then None
    else
      match Skip8(data[43..])
      case None => None
      case Some(p1) =>
        match Skip16(p1)
        case None => None
        case Some(p2) =>
          match Skip8(p2)
          case None => None
          case Some(p3) => Take16(p3)
  }

  // The first name of a server_name extension; its type is not inspected.
  function FirstName(body: bytes): bytes {
    if |body| < 5 || |body| < 5 + U16(body[3], body[4]) then []
    else body[5..5 + U16(body[3], body[4])]
  }

  function FindName(ext: bytes): bytes
    decreases |ext|
  {
    if |ext| < 4 || |ext| - 4 < U16(ext[2], ext[3]) then []
    else
      var n := U16(ext[2], ext[3]);
      if U16(ext[0], ext[1]) != 0 then FindName(ext[4 + n..]) else FirstName(ext[4..4 + n])
  }

  // The empty name stands for "none".
  function ServerName(data: bytes): bytes {
    match ExtensionBlock(data)
    case None => []
    case Some(ext) => FindName(ext)
  }

  // The same with the length cut off first, as the cursor does it.
  lemma Skip8Is(p: bytes)
    ensures Skip8(p) == if |p| < 1 || |p[1..]| < p[0] then None else Some(p[1..][p[0]..])
  {
    if |p| >= 1 && |p| - 1 >= p[0] {
      assert p[1 + p[0]..] == p[1..][p[0]..];
    }
  }

  lemma Skip16Is(p: bytes)
    ensures Skip16(p) ==
      if |p| < 2 || |p[2..]| < U16(p[0], p[1]) then None else Some(p[2..][U16(p[0], p[1])..])
  {
    if |p| >= 2 && |p| - 2 >= U16(p[0], p[1]) {
      assert p[2 + U16(p[0], p[1])..] == p[2..][U16(p[0], p[1])..];
    }
  }

  lemma Take16Is(p: bytes)
    ensures Take16(p) ==
      if |p| < 2 || |p[2..]| < U16(p[0], p[1]) then None else Some(p[2..][..U16(p[0], p[1])])
  {
    if |p| >= 2 && |p| - 2 >= U16(p[0], p[1]) {
      assert p[2..2 + U16(p[0], p[1])] == p[2..][..U16(p[0], p[1])];
    }
  }

  // parseSNI, first half: the cursor p moves over the handshake header and three
  // length-prefixed fields, then the extension block is cut out.
  method ReadExtensionBlock(data: bytes) returns (ext: Option<bytes>)
    ensures ext == ExtensionBlock(data)
  {
    hide Skip8, Skip16, Take16, U16;
    if |data| < 5 + 4 {
      return None;
    }
    var body := data[5..];
    if |body| < 4 || body[0] != 0x01 {
      return None;
    }
    var p := body[4..];
    if |p| < 34 {
      return None;
    }
    p := p[34..];
    assert p == data[43..];
    Skip8Is(p);
    if |p| < 1 {
      return None;
    }
    var sessLen := p[0];
    p := p[1..];
    if |p| < sessLen {
      return None;
    }
    p := p[sessLen..];
    ghost var p1 := p;
    Skip16Is(p1);
    if |p| < 2 {
      return None;
    }
    var csLen := U16(p[0], p[1]);
    p := p[2..];
    if |p| < csLen {
      return None;
    }
    p := p[csLen..];
    ghost var p2 := p;
    Skip8Is(p2);
    if |p| < 1 {
      return None;
    }
    var cmLen := p[0];
    p := p[1..];
    if |p| < cmLen {
      return None;
    }
    p := p[cmLen..];
    ghost var p3 := p;
    Take16Is(p3);
    if |p| < 2 {
      return None;
    }
    var extLen := U16(p[0], p[1]);
    p := p[2..];
    if |p| < extLen {
      return None;
    }
    assert p[..extLen] == p3[2..2 + extLen];
    return Some(p[..extLen]);
  }

  // parseSNI, second half: the cursor ext moves from extension to extension.
  method ParseSNI(data: bytes) returns (name: bytes)
    ensures name == ServerName(data)
  {
    hide ExtensionBlock;
    var block := ReadExtensionBlock(data);
    if block.None? {
      return [];
    }
    var ext := block.value;
    while |ext| >= 4
      invariant ServerName(data) == FindName(ext)
      decreases |ext|
    {
      var t, l := U16(ext[0], ext[1]), U16(ext[2], ext[3]);
      ghost var before := ext;
      ext := ext[4..];
      if |ext| < l {
        return [];
      }
      var entry := ext[..l];
      ext := ext[l..];
      assert entry == before[4..4 + l] && ext == before[4 + l..];
      if t != 0 {
        continue;
      }
      if |entry| < 2 {
        return [];
      }
      if |entry| < 5 {
        return [];
      }
      var nameLen := U16(entry[3], entry[4]);
      if |entry| < 5 + nameLen {
        return [];
      }
      return entry[5..5 + nameLen];
    }
    return [];
  }

  // --- The encoder ------------------------------------------------------------------

  function Put16(n: nat): bytes
    requires n < 0x10000
  {
    [n / 256, n % 256]
  }

  function Vec8(x: bytes): bytes
    requires |x| < 256
  {
    [|x|] + x
  }

  function Vec16(x: bytes): bytes
    requires |x| < 0x10000
  {
    Put16(|x|) + x
  }

  datatype Extension = Extension(kind: nat, body: bytes) {
    predicate Valid() {
      kind < 0x10000 && |body| < 0x10000
    }
  }

  function PutExtensions(list: seq<Extension>): bytes
    requires forall e :: e in list ==> e.Valid()
  {
    if list == [] then []
    else
      assert list[0] in list && list[0].Valid();
      Put16(list[0].kind) + Vec16(list[0].body) + PutExtensions(list[1..])
  }

  // A hello in one record. The parser reads no further than the server_name
  // extension, so what follows the listed extensions inside the extension block
  // (rest) and after the block (trailing) is arbitrary.
  datatype Hello = Hello(
    record: bytes,       // record type, version and length
    length: bytes,       // handshake length
    fixed: bytes,        // legacy version and random
    session: bytes,
    ciphers: bytes,
    compression: bytes,
    extensions: seq<Extension>,
    rest: bytes,
    trailing: bytes)
  {
    predicate Valid() {
      && |record| == 5 && |length| == 3 && |fixed| == 34
      && |session| < 256 && |ciphers| < 0x10000 && |compression| < 256
      && (forall e :: e in extensions ==> e.Valid())
      && |PutExtensions(extensions) + rest| < 0x10000
    }

    function AfterFixed(): bytes
      requires Valid()
    {
      Vec8(session) + (Vec16(ciphers) + (Vec8(compression) + (Vec16(PutExtensions(extensions) + rest) + trailing)))
    }

    function Encode(): bytes
      requires Valid()
    {
      record + [1] + length + fixed + AfterFixed()
    }
  }

  // The list of names of one server_name extension (section 3 of RFC 6066).
  function PutServerName(name: bytes, more: bytes): bytes
    requires 3 + |name| + |more| < 0x10000
  {
    Put16(3 + |name| + |more|) + [0] + Vec16(name) + more
  }

  function FirstServerName(list: seq<Extension>): bytes {
    if list == [] then []
    else if list[0].kind == 0 then FirstName(list[0].body)
    else FirstServerName(list[1..])
  }

  predicate HasServerName(list: seq<Extension>) {
    exists e :: e in list && e.kind == 0
  }

  // --- Decoding undoes encoding --------------------------------------------------------

  lemma Vec8Skipped(x: bytes, rest: bytes)
    requires |x| < 256
    ensures Skip8(Vec8(x) + rest) == Some(rest)
  {
    assert (Vec8(x) + rest)[1 + |x|..] == rest;
  }

  lemma Vec16Skipped(x: bytes, rest: bytes)
    requires |x| < 0x10000
    ensures Skip16(Vec16(x) + rest) == Some(rest)
    ensures Take16(Vec16(x) + rest) == Some(x)
  {
    var p := Vec16(x) + rest;
    assert U16(p[0], p[1]) == |x|;
    assert p[2 + |x|..] == rest && p[2..2 + |x|] == x;
  }

  lemma HelloBlock(h: Hello)
    requires h.Valid()
    ensures ExtensionBlock(h.Encode()) == Some(PutExtensions(h.extensions) + h.rest)
  {
    hide Skip8, Skip16, Take16, Vec8, Vec16, PutExtensions;
    var block := PutExtensions(h.extensions) + h.rest;
    var p3 := Vec16(block) + h.trailing;
    var p2 := Vec8(h.compression) + p3;
    var p1 := Vec16(h.ciphers) + p2;
    assert h.Encode()[43..] == h.AfterFixed() == Vec8(h.session) + p1;
    Vec8Skipped(h.session, p1);
    Vec16Skipped(h.ciphers, p2);
    Vec8Skipped(h.compression, p3);
    Vec16Skipped(block, h.trailing);
  }

  lemma ExtensionStep(e: Extension, rest: bytes)
    requires e.Valid()
    ensures FindName(Put16(e.kind) + Vec16(e.body) + rest) == if e.kind == 0 then FirstName(e.body) else FindName(rest)
  {
    var ext := Put16(e.kind) + Vec16(e.body) + rest;
    assert U16(ext[0], ext[1]) == e.kind && U16(ext[2], ext[3]) == |e.body|;
    assert ext[4..4 + |e.body|] == e.body && ext[4 + |e.body|..] == rest;
  }

  lemma {:induction false} ExtensionsFound(list: seq<Extension>, rest: bytes)
    requires forall e :: e in list ==> e.Valid()
    ensures FindName(PutExtensions(list) + rest) ==
      if HasServerName(list) then FirstServerName(list) else FindName(rest)
  {
    hide FirstName, FindName, Vec16;
    if list == [] {
      assert [] + rest == rest;
    } else {
      var e, tail := list[0], list[1..];
      assert e in list && forall x :: x in list <==> x == e || x in tail;
      ExtensionStep(e, PutExtensions(tail) + rest);
      assert PutExtensions(list) + rest == Put16(e.kind) + Vec16(e.body) + (PutExtensions(tail) + rest);
      ExtensionsFound(tail, rest);
    }
  }

  // Whatever the other extensions are and wherever server_name stands among
  // them, the parser returns the name in the first one.
  lemma HelloServerName(h: Hello)
    requires h.Valid() && HasServerName(h.extensions)
    ensures ServerName(h.Encode()) == FirstServerName(h.extensions)
  {
    hide ExtensionBlock, FindName, FirstServerName, PutExtensions;
    HelloBlock(h);
    ExtensionsFound(h.extensions, h.rest);
  }

  // A complete extension block without server_name yields no name.
  lemma HelloWithoutServerName(h: Hello)
    requires h.Valid() && !HasServerName(h.extensions) && h.rest == []
    ensures ServerName(h.Encode()) == []
  {
    hide ExtensionBlock, FirstServerName, PutExtensions;
    HelloBlock(h);
    ExtensionsFound(h.extensions, h.rest);
  }

  lemma NameEncoded(name: bytes, more: bytes)
    requires 3 + |name| + |more| < 0x10000
    ensures FirstName(PutServerName(name, more)) == name
  {
    var body := PutServerName(name, more);
    assert U16(body[3], body[4]) == |name|;
    assert body[5..5 + |name|] == name;
  }

  lemma {:induction false} FirstServerNameAt(before: seq<Extension>, e: Extension, after: seq<Extension>)
    requires !HasServerName(before) && e.kind == 0
    ensures FirstServerName(before + [e] + after) == FirstName(e.body)
    ensures HasServerName(before + [e] + after)
  {
    var list := before + [e] + after;
    assert list[|before|] == e;
    if before != [] {
      assert before[0] in before && forall x :: x in before[1..] ==> x in before;
      assert list[1..] == before[1..] + [e] + after;
      FirstServerNameAt(before[1..], e, after);
    }
  }

  // The inverse, spelled out: any hello announcing `name` parses to `name`.
  lemma AnnouncedNameParsed(h: Hello, before: seq<Extension>, name: bytes, more: bytes, after: seq<Extension>)
    requires 3 + |name| + |more| < 0x10000
    requires h.extensions == before + [Extension(0, PutServerName(name, more))] + after
    requires !HasServerName(before) && h.Valid()
    ensures ServerName(h.Encode()) == name
  {
    hide ExtensionBlock, FindName, FirstServerName, PutExtensions, FirstName, PutServerName, HasServerName;
    FirstServerNameAt(before, Extension(0, PutServerName(name, more)), after);
    NameEncoded(name, more);
    HelloServerName(h);
  }

  // --- Every name comes from a hello -----------------------------------------------------

  lemma Vec8Read(p: bytes) returns (x: bytes)
    requires Skip8(p).Some?
    ensures |x| < 256 && p == Vec8(x) + Skip8(p).value
  {
    x := p[1..1 + p[0]];
  }

  lemma Put16U16(hi: byte, lo: byte)
    ensures U16(hi, lo) < 0x10000 && Put16(U16(hi, lo)) == [hi, lo]
  {
  }

  lemma Vec16Read(p: bytes) returns (x: bytes)
    requires Skip16(p).Some?
    ensures |x| < 0x10000 && p == Vec16(x) + Skip16(p).value && Take16(p) == Some(x)
  {
    x := p[2..2 + U16(p[0], p[1])];
    Put16U16(p[0], p[1]);
    assert p == p[..2] + (x + Skip16(p).value);
  }

  // A server_name extension with `name` first in its list: after the length of the
  // list and the type of the name, its length in two bytes, the high one first.
  predicate Carries(body: bytes, name: bytes) {
    5 + |name| <= |body| && body[3] as int * 256 + body[4] as int == |name| && body[5..5 + |name|] == name
  }

  // The last extension listed is the only server_name, and carries `name`.
  predicate EndsInName(list: seq<Extension>, name: bytes) {
    && list != []
    && !HasServerName(list[..|list| - 1])
    && list[|list| - 1].kind == 0 && Carries(list[|list| - 1].body, name)
  }

  lemma {:induction false} ExtensionsRead(ext: bytes) returns (list: seq<Extension>, rest: bytes)
    requires FindName(ext) != []
    ensures EndsInName(list, FindName(ext)) && forall x :: x in list ==> x.Valid()
    ensures ext == PutExtensions(list) + rest
    decreases |ext|
  {
    hide FirstName, PutExtensions, FindName, EndsInName, Put16, Vec16;
    var one, tail := ExtensionRead(ext);
    if one.kind == 0 {
      list, rest := [one], tail;
      PutOne(one);
      EndsInOne(one);
    } else {
      var more;
      more, rest := ExtensionsRead(tail);
      list := [one] + more;
      PutCons(one, more);
      EndsInMore(one, more, FindName(tail));
      assert PutExtensions(list) + rest == Put16(one.kind) + Vec16(one.body) + (PutExtensions(more) + rest);
    }
  }

  lemma EndsInOne(one: Extension)
    requires one.kind == 0 && FirstName(one.body) != []
    ensures EndsInName([one], FirstName(one.body))
  {
  }

  lemma EndsInMore(one: Extension, more: seq<Extension>, name: bytes)
    requires one.kind != 0 && EndsInName(more, name)
    ensures EndsInName([one] + more, name)
  {
    hide FirstName;
    assert ([one] + more)[..|more|] == [one] + more[..|more| - 1];
  }

  lemma ExtensionRead(ext: bytes) returns (one: Extension, tail: bytes)
    requires FindName(ext) != []
    ensures one.Valid() && |tail| < |ext|
    ensures ext == Put16(one.kind) + Vec16(one.body) + tail
    ensures FindName(ext) == if one.kind == 0 then FirstName(one.body) else FindName(tail)
  {
    hide FirstName;
    var n := U16(ext[2], ext[3]);
    var kind, body := U16(ext[0], ext[1]), ext[4..4 + n];
    tail := ext[4 + n..];
    Put16U16(ext[0], ext[1]);
    Put16U16(ext[2], ext[3]);
    one := Extension(kind, body);
    assert ext == [ext[0], ext[1]] + ([ext[2], ext[3]] + body) + tail;
  }

  lemma PutCons(one: Extension, list: seq<Extension>)
    requires one.Valid() && forall x :: x in list ==> x.Valid()
    ensures PutExtensions([one] + list) == Put16(one.kind) + Vec16(one.body) + PutExtensions(list)
  {
    hide Put16, Vec16;
    assert ([one] + list)[1..] == list;
  }

  lemma PutOne(one: Extension)
    requires one.Valid()
    ensures PutExtensions([one]) == Put16(one.kind) + Vec16(one.body)
  {
    hide Put16, Vec16;
    PutCons(one, []);
    assert [one] + [] == [one];
    assert Put16(one.kind) + Vec16(one.body) + [] == Put16(one.kind) + Vec16(one.body);
  }

  // The cursor half read backwards.
  lemma BlockRead(data: bytes) returns (h: Hello, block: bytes)
    requires ExtensionBlock(data).Some?
    ensures block == ExtensionBlock(data).value && |block| < 0x10000
    ensures |h.record| == 5 && |h.length| == 3 && |h.fixed| == 34
    ensures |h.session| < 256 && |h.ciphers| < 0x10000 && |h.compression| < 256
    ensures data == h.record + [1] + h.length + h.fixed +
      (Vec8(h.session) + (Vec16(h.ciphers) + (Vec8(h.compression) + (Vec16(block) + h.trailing))))
  {
    hide Skip8, Skip16, Take16, Vec8, Vec16;
    var p0 := data[43..];
    assert data == data[..5] + [1] + data[6..9] + data[9..43] + p0;
    var session := Vec8Read(p0);
    var p1 := Skip8(p0).value;
    var ciphers := Vec16Read(p1);
    var p2 := Skip16(p1).value;
    var compression := Vec8Read(p2);
    var p3 := Skip8(p2).value;
    TakeSkip(p3);
    block := Vec16Read(p3);
    h := Hello(data[..5], data[6..9], data[9..43], session, ciphers, compression, [], [], Skip16(p3).value);
  }

  lemma TakeSkip(p: bytes)
    ensures Take16(p).Some? <==> Skip16(p).Some?
  {
  }

  // h announces `name` in its last listed extension, the only server_name there.
  predicate Announces(h: Hello, name: bytes) {
    h.Valid() && EndsInName(h.extensions, name)
  }

  lemma NameRead(data: bytes) returns (h: Hello)
    requires ServerName(data) != []
    ensures Announces(h, ServerName(data)) && h.Encode() == data
  {
    hide ExtensionBlock, FindName, Vec8, Vec16, EndsInName, PutExtensions;
    var h0, block := BlockRead(data);
    var list, rest := ExtensionsRead(block);
    h := h0.(extensions := list, rest := rest);
  }

  lemma CarriedFirst(body: bytes, name: bytes)
    requires Carries(body, name)
    ensures FirstName(body) == name
  {
  }

  // For every byte string, a name is returned exactly when the bytes are a hello
  // whose first server_name extension carries that name.
  lemma ServerNameExactly(data: bytes, name: bytes)
    requires name != []
    ensures ServerName(data) == name <==> exists h: Hello :: Announces(h, name) && h.Encode() == data
  {
    hide ServerName, FirstName, Vec8, Vec16, PutExtensions, HasServerName, FirstServerName;
    if ServerName(data) == name {
      var h := NameRead(data);
    }
    if h: Hello :| Announces(h, name) && h.Encode() == data {
      var front, e := h.extensions[..|h.extensions| - 1], h.extensions[|h.extensions| - 1];
      assert h.extensions == front + [e] + [];
      CarriedFirst(e.body, name);
      FirstServerNameAt(front, e, []);
      HelloServerName(h);
    }
  }

  // A hello byte by byte: type 1, version 3.3, the random, an empty session id, one
  // cipher suite, one compression method, and extensions 23 (empty) and 0, the
  // latter announcing "a.b".
  function SmallHello(random: bytes): bytes {
    [22, 3, 1, 0, 63, 1, 0, 0, 59, 3, 3] + random + SmallTail()
  }

  function SmallTail(): bytes {
    [0] + ([0, 2, 19, 1] + ([1, 0] + ([0, 16] + SmallBlock())))
  }

  function SmallBlock(): bytes {
    [0, 23, 0, 0] + [0, 0, 0, 8, 0, 6, 0, 0, 3, 97, 46, 98]
  }

  lemma SmallHelloParsed(random: bytes)
    requires |random| == 32
    ensures |SmallHello(random)| == 68 && ServerName(SmallHello(random)) == [97, 46, 98]
  {
    hide FirstName, FindName, SmallBlock;
    var e := SmallHello(random);
    assert e[43..] == SmallTail() && e[5] == 1;
    SmallTailCut();
    SmallBlockRead();
  }

  lemma SmallTailCut()
    ensures |SmallTail()| == 25
    ensures
      var p1 := Skip8(SmallTail());
      && p1.Some?
      && var p2 := Skip16(p1.value);
         && p2.Some?
         && var p3 := Skip8(p2.value);
            p3.Some? && Take16(p3.value) == Some(SmallBlock())
  {
    hide SmallBlock, Skip8, Skip16, Take16, Vec8, Vec16;
    var block := SmallBlock();
    SmallVectors(block);
    var p3 := [0, 16] + block;
    var p2 := [1, 0] + p3;
    var p1 := [0, 2, 19, 1] + p2;
    Vec8Skipped([], p1);
    Vec16Skipped([19, 1], p2);
    Vec8Skipped([0], p3);
    Vec16Skipped(block, []);
    assert Vec16(block) + [] == p3;
  }

  lemma SmallVectors(block: bytes)
    requires block == SmallBlock()
    ensures |block| == 16 && |SmallTail()| == 25
    ensures Vec8([]) == [0] && Vec16([19, 1]) == [0, 2, 19, 1] && Vec8([0]) == [1, 0] && Vec16(block) == [0, 16] + block
  {
    assert Put16(2) == [0, 2] && Put16(16) == [0, 16];
  }

  lemma SmallBlockRead()
    ensures FindName(SmallBlock()) == [97, 46, 98]
  {
    var second: bytes := [0, 0, 0, 8, 0, 6, 0, 0, 3, 97, 46, 98];
    assert SmallBlock()[4..] == second;
    var entry: bytes := [0, 6, 0, 0, 3, 97, 46, 98];
    assert second[4..12] == entry && entry[5..8] == [97, 46, 98];
    assert FindName(second) == FirstName(entry) == [97, 46, 98];
  }
}
