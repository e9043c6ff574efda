/** New-style OpenSSH private keys: the writer and the reader of import.c. */
module OpenSshKey {
  import opened Machine
  import opened SshStrings

  datatype Result<T> = Ok(value: T) | Err(message: string)

  // The container around the private section.

  datatype Cipher = NoCipher | Aes256Cbc
  datatype Kdf = NoKdf | Bcrypt(salt: seq<byte>, rounds: uint32)
  datatype Container = Container(cipher: Cipher, kdf: Kdf, private: seq<byte>)

  const MAGIC: seq<byte> := Ascii("openssh-key-v1") + [0]

  function CipherName(c: Cipher): (b: seq<byte>)
    ensures |b| == if c.NoCipher? then 4 else 10
  {
    match c
    case NoCipher => Ascii("none")
    case Aes256Cbc => Ascii("aes256-cbc")
  }

  function KdfName(k: Kdf): (b: seq<byte>)
    ensures |b| == if k.NoKdf? then 4 else 6
  {
    match k
    case NoKdf => Ascii("none")
    case Bcrypt(_, _) => Ascii("bcrypt")
  }

  /** What an options string must start with, and the rest of it, which nobody looks at. */
  ghost predicate IsOptions(k: Kdf, opts: seq<byte>) {
    match k
    case NoKdf => opts == []
    case Bcrypt(salt, rounds) => |salt| < TWO32 && Str(salt) + Bytes4(rounds) <= opts
  }

  /** A key file that holds the container c. */
  ghost predicate IsFile(c: Container, opts: seq<byte>, pub: seq<byte>, tail: seq<byte>, file: seq<byte>) {
    && |opts| < TWO32 && |pub| < TWO32 && |c.private| < TWO32 && IsOptions(c.kdf, opts)
    && file == Head(c, opts) + (Bytes4(1) + (Str(pub) + (Str(c.private) + tail)))
  }

  function Head(c: Container, opts: seq<byte>): seq<byte>
    requires |opts| < TWO32
  {
    MAGIC + Str(CipherName(c.cipher)) + Str(KdfName(c.kdf)) + Str(opts)
  }

  /** How every key file without a passphrase begins, up to the number of keys: "b3BlbnNzaC1rZXktdjEAAAAABG5vbmU..." in base64. */
  lemma PlainHead(private: seq<byte>)
    ensures Head(Container(NoCipher, NoKdf, private), []) + Bytes4(1)
            == [0x6F, 0x70, 0x65, 0x6E, 0x73, 0x73, 0x68, 0x2D, 0x6B, 0x65, 0x79, 0x2D, 0x76, 0x31, 0,
                0, 0, 0, 4, 0x6E, 0x6F, 0x6E, 0x65, 0, 0, 0, 4, 0x6E, 0x6F, 0x6E, 0x65, 0, 0, 0, 0, 0, 0, 0, 1]
  {
    PlainNames();
    hide CipherName, KdfName;
  }

  lemma PlainNames()
    ensures MAGIC == [0x6F, 0x70, 0x65, 0x6E, 0x73, 0x73, 0x68, 0x2D, 0x6B, 0x65, 0x79, 0x2D, 0x76, 0x31, 0]
    ensures CipherName(NoCipher) == KdfName(NoKdf) == [0x6E, 0x6F, 0x6E, 0x65]
  {
  }

  function ParseCipher(s: seq<byte>): Option<Cipher> {
    if s == CipherName(NoCipher) then Some(NoCipher)
    else if s == CipherName(Aes256Cbc) then Some(Aes256Cbc)
    else None
  }

  function ParseKdf(name: seq<byte>, opts: seq<byte>): Result<Kdf> {
    if name == KdfName(NoKdf) then
      if |opts| != 0 then Err("expected empty options string for 'none' kdf") else Ok(NoKdf)
    else
      var salt := TakeString(opts);
      if salt.None? then Err("bcrypt options string did not contain salt\n")
      else
        var rounds := TakeUint32(salt.value.1);
        if rounds.None? then Err("bcrypt options string did not contain round count\n")
        else Ok(Bcrypt(salt.value.0, rounds.value.0))
  }

  lemma ParseKdfIff(name: seq<byte>, opts: seq<byte>, k: Kdf)
    requires name == KdfName(NoKdf) || name == KdfName(Bcrypt([], 0))
    ensures ParseKdf(name, opts) == Ok(k) <==> name == KdfName(k) && IsOptions(k, opts)
  {
    hide TakeString, TakeUint32, Str, Bytes4, Ascii;
    if name == KdfName(Bcrypt([], 0)) {
      var salt := TakeString(opts);
      if salt.Some? {
        StringIff(opts, salt.value.0, salt.value.1);
        var rounds := TakeUint32(salt.value.1);
        if rounds.Some? {
          Uint32Iff(salt.value.1, rounds.value.0, rounds.value.1);
          var head := Str(salt.value.0) + Bytes4(rounds.value.0);
          assert opts == head + rounds.value.1;
        }
      }
      if k.Bcrypt? && IsOptions(k, opts) {
        var head := Str(k.salt) + Bytes4(k.rounds);
        var rest := opts[|head|..];
        assert opts == Str(k.salt) + (Bytes4(k.rounds) + rest);
        StringIff(opts, k.salt, Bytes4(k.rounds) + rest);
        Uint32Iff(Bytes4(k.rounds) + rest, k.rounds, rest);
      }
    }
  }

  function ParseBody(cipher: Cipher, kdf: Kdf, s: seq<byte>): Result<Container> {
    var count := TakeUint32(s);
    if count.None? then Err("encountered EOF before key count\n")
    else if count.value.0 != 1 then Err("multiple keys in new-style OpenSSH key file not supported\n")
    else
      var pub := TakeString(count.value.1);
      if pub.None? then Err("encountered EOF before kdf options\n")
      else
        var private := TakeString(pub.value.1);
        if private.None? then Err("encountered EOF before private key container\n")
        else Ok(Container(cipher, kdf, private.value.0))
  }

  function ParseHead(s: seq<byte>): Result<(Cipher, Kdf, seq<byte>)> {
    var cname := TakeString(s);
    if cname.None? then Err("encountered EOF before cipher name\n")
    else
      var cipher := ParseCipher(cname.value.0);
      if cipher.None? then Err("unrecognised cipher name\n")
      else
        var kname := TakeString(cname.value.1);
        if kname.None? then Err("encountered EOF before kdf name\n")
        else if kname.value.0 != Ascii("none") && kname.value.0 != Ascii("bcrypt") then Err("unrecognised kdf name\n")
        else
          var opts := TakeString(kname.value.1);
          if opts.None? then Err("encountered EOF before kdf options\n")
          else
            var kdf := ParseKdf(kname.value.0, opts.value.0);
            if kdf.Err? then Err(kdf.message) else Ok((cipher.value, kdf.value, opts.value.1))
  }

  function ParseFile(file: seq<byte>): Result<Container> {
    if |file| < 15 || file[..15] != MAGIC then Err("new-style OpenSSH magic number missing\n")
    else
      var head := ParseHead(file[15..]);
      if head.Err? then Err(head.message) else ParseBody(head.value.0, head.value.1, head.value.2)
  }

  ghost predicate IsBody(private: seq<byte>, pub: seq<byte>, tail: seq<byte>, s: seq<byte>) {
    && |pub| < TWO32 && |private| < TWO32
    && s == Bytes4(1) + (Str(pub) + (Str(private) + tail))
  }

  lemma BodyIff(cipher: Cipher, kdf: Kdf, s: seq<byte>, c: Container)
    ensures ParseBody(cipher, kdf, s) == Ok(c) <==>
            c.cipher == cipher && c.kdf == kdf && exists pub, tail :: IsBody(c.private, pub, tail, s)
  {
    hide TakeString, TakeUint32, Str, Bytes4;
    if ParseBody(cipher, kdf, s) == Ok(c) {
      var count := TakeUint32(s).value;
      var pub := TakeString(count.1).value;
      var private := TakeString(pub.1).value;
      Uint32Iff(s, count.0, count.1);
      StringIff(count.1, pub.0, pub.1);
      StringIff(pub.1, private.0, private.1);
      assert IsBody(c.private, pub.0, private.1, s);
    }
    if c.cipher == cipher && c.kdf == kdf {
      if pub, tail :| IsBody(c.private, pub, tail, s) {
        Uint32Iff(s, 1, Str(pub) + (Str(c.private) + tail));
        StringIff(Str(pub) + (Str(c.private) + tail), pub, Str(c.private) + tail);
        StringIff(Str(c.private) + tail, c.private, tail);
      }
    }
  }

  ghost predicate IsHead(cipher: Cipher, kdf: Kdf, opts: seq<byte>, rest: seq<byte>, s: seq<byte>) {
    && |opts| < TWO32 && IsOptions(kdf, opts)
    && s == Str(CipherName(cipher)) + (Str(KdfName(kdf)) + (Str(opts) + rest))
  }

  lemma HeadIff(s: seq<byte>, cipher: Cipher, kdf: Kdf, rest: seq<byte>)
    ensures ParseHead(s) == Ok((cipher, kdf, rest)) <==> exists opts :: IsHead(cipher, kdf, opts, rest, s)
  {
    hide TakeString, TakeUint32, Str, Bytes4, Ascii, ParseKdf, IsOptions;
    if ParseHead(s) == Ok((cipher, kdf, rest)) {
      var cname := TakeString(s).value;
      var kname := TakeString(cname.1).value;
      var opts := TakeString(kname.1).value;
      StringIff(s, cname.0, cname.1);
      StringIff(cname.1, kname.0, kname.1);
      StringIff(kname.1, opts.0, opts.1);
      ParseKdfIff(kname.0, opts.0, kdf);
      assert IsHead(cipher, kdf, opts.0, rest, s);
    }
    if opts :| IsHead(cipher, kdf, opts, rest, s) {
      StringIff(s, CipherName(cipher), Str(KdfName(kdf)) + (Str(opts) + rest));
      StringIff(Str(KdfName(kdf)) + (Str(opts) + rest), KdfName(kdf), Str(opts) + rest);
      StringIff(Str(opts) + rest, opts, rest);
      ParseKdfIff(KdfName(kdf), opts, kdf);
    }
  }

  /** load_openssh_new_key accepts exactly the files that hold a container, with anything after it. */
  lemma FileIff(file: seq<byte>, c: Container)
    ensures ParseFile(file) == Ok(c) <==> exists opts, pub, tail :: IsFile(c, opts, pub, tail, file)
  {
    hide ParseHead, ParseBody, Str, Bytes4, IsOptions, CipherName, KdfName;
    if ParseFile(file) == Ok(c) {
      var head := ParseHead(file[15..]).value;
      HeadIff(file[15..], head.0, head.1, head.2);
      BodyIff(head.0, head.1, head.2, c);
      var opts :| IsHead(head.0, head.1, opts, head.2, file[15..]);
      var pub, tail :| IsBody(c.private, pub, tail, head.2);
      assert file == MAGIC + file[15..];
      assert file == Head(c, opts) + head.2;
      assert IsFile(c, opts, pub, tail, file);
    }
    if opts, pub, tail :| IsFile(c, opts, pub, tail, file) {
      FileParses(c, opts, pub, tail, file);
    }
  }

  lemma FileParses(c: Container, opts: seq<byte>, pub: seq<byte>, tail: seq<byte>, file: seq<byte>)
    requires IsFile(c, opts, pub, tail, file)
    ensures ParseFile(file) == Ok(c)
  {
    hide ParseHead, ParseBody, Str, Bytes4, IsOptions, CipherName, KdfName;
    var body := Bytes4(1) + (Str(pub) + (Str(c.private) + tail));
    var rest := Str(CipherName(c.cipher)) + (Str(KdfName(c.kdf)) + (Str(opts) + body));
    assert file == MAGIC + rest;
    assert file[..15] == MAGIC && file[15..] == rest;
    assert IsHead(c.cipher, c.kdf, opts, body, rest);
    HeadIff(rest, c.cipher, c.kdf, body);
    assert IsBody(c.private, pub, tail, body);
    BodyIff(c.cipher, c.kdf, body, c);
  }

  /** load_openssh_new_key, from the bytes that the base64 lines decode to. */
  method LoadFile(file: seq<byte>) returns (r: Result<Container>)
    ensures r == ParseFile(file)
  {
    hide TakeString, TakeUint32;
    if |file| < 15 || file[..15] != MAGIC {
      return Err("new-style OpenSSH magic number missing\n");
    }
    var cur := new Cursor(file[15..]);
    var head := LoadHead(cur);
    if head.Err? {
      return Err(head.message);
    }
    var (cipher, kdf) := head.value;
    r := LoadBody(cur, cipher, kdf);
  }

  method LoadHead(cur: Cursor) returns (r: Result<(Cipher, Kdf)>)
    requires cur.Valid()
    modifies cur
    ensures cur.Valid()
    ensures var p := ParseHead(old(cur.Rest()));
            if r.Ok? then p == Ok((r.value.0, r.value.1, cur.Rest())) else p == Err(r.message)
  {
    hide TakeString, TakeUint32;
    var cname := cur.GetString();
    if cname.None? {
      return Err("encountered EOF before cipher name\n");
    }
    var cipher: Cipher;
    if cname.value == Ascii("none") {
      cipher := NoCipher;
    } else if cname.value == Ascii("aes256-cbc") {
      cipher := Aes256Cbc;
    } else {
      return Err("unrecognised cipher name\n");
    }
    var kname := cur.GetString();
    if kname.None? {
      return Err("encountered EOF before kdf name\n");
    }
    if kname.value != Ascii("none") && kname.value != Ascii("bcrypt") {
      return Err("unrecognised kdf name\n");
    }
    var opts := cur.GetString();
    if opts.None? {
      return Err("encountered EOF before kdf options\n");
    }
    var kdf := LoadKdf(kname.value, opts.value);
    r := if kdf.Err? then Err(kdf.message) else Ok((cipher, kdf.value));
  }

  method LoadKdf(name: seq<byte>, opts: seq<byte>) returns (r: Result<Kdf>)
    requires name == Ascii("none") || name == Ascii("bcrypt")
    ensures r == ParseKdf(name, opts)
  {
    hide TakeString, TakeUint32;
    if name == Ascii("none") {
      return if |opts| != 0 then Err("expected empty options string for 'none' kdf") else Ok(NoKdf);
    }
    var cur := new Cursor(opts);
    var salt := cur.GetString();
    if salt.None? {
      return Err("bcrypt options string did not contain salt\n");
    }
    var rounds := cur.GetUint32();
    if rounds.None? {
      return Err("bcrypt options string did not contain round count\n");
    }
    return Ok(Bcrypt(salt.value, rounds.value));
  }

  method LoadBody(cur: Cursor, cipher: Cipher, kdf: Kdf) returns (r: Result<Container>)
    requires cur.Valid()
    modifies cur
    ensures r == ParseBody(cipher, kdf, old(cur.Rest()))
  {
    hide TakeString, TakeUint32;
    var nkeys := cur.GetUint32();
    if nkeys.None? {
      return Err("encountered EOF before key count\n");
    }
    if nkeys.value != 1 {
      return Err("multiple keys in new-style OpenSSH key file not supported\n");
    }
    var pub := cur.GetString();
    if pub.None? {
      return Err("encountered EOF before kdf options\n");
    }
    var private := cur.GetString();
    if private.None? {
      return Err("encountered EOF before private key container\n");
    }
    return Ok(Container(cipher, kdf, private.value));
  }

  // The private section.

  /** The padding: 1, 2, 3 and so on. */
  predicate IsPadding(s: seq<byte>) {
    forall i :: 0 <= i < |s| ==> s[i] == (i + 1) % 256
  }

  /** What a "%.*s" format prints of a buffer: up to the first zero byte. */
  function Printed(s: seq<byte>): (r: seq<byte>)
    ensures 0 !in r && r <= s
  {
    if s == [] || s[0] == 0 then [] else [s[0]] + Printed(s[1..])
  }

  lemma {:induction false} PrintedWhole(s: seq<byte>)
    ensures Printed(s) == s <==> 0 !in s
  {
    if s != [] {
      PrintedWhole(s[1..]);
      assert s == [s[0]] + s[1..];
    }
  }

  /** The recognised algorithms with their openssh_private_npieces, and openssh_createkey of each. */
  datatype Algorithms<!K> = Algorithms(npieces: map<seq<byte>, nat>, createKey: (seq<byte>, seq<byte>) -> Option<K>)

  datatype UserKey<K> = UserKey(data: K, comment: seq<byte>)

  function ParseKey<K>(algs: Algorithms<K>, s: seq<byte>): Result<UserKey<K>> {
    var name := TakeString(s);
    if name.None? then Err("expected key type in private string")
    else
      var alg := Printed(name.value.0);
      if alg !in algs.npieces then Err("private key type not recognised\n")
      else
        var pieces := TakeStrings(algs.npieces[alg], name.value.1);
        if pieces.None? then Err("ran out of data in mid-private-key")
        else
          TakenLength(algs.npieces[alg], name.value.1);
          var thiskey := name.value.1[..|name.value.1| - |pieces.value.1|];
          var data := algs.createKey(alg, thiskey);
          if data.None? then Err("unable to create key data structure") else ParseComment(data.value, pieces.value.1)
  }

  function ParseComment<K>(data: K, s: seq<byte>): Result<UserKey<K>> {
    var comment := TakeString(s);
    if comment.None? then Err("ran out of data at key comment")
    else if IsPadding(comment.value.1) then Ok(UserKey(data, Printed(comment.value.0)))
    else Err("padding at end of private string did not match")
  }

  lemma TakenLength(n: nat, s: seq<byte>)
    ensures TakeStrings(n, s).Some? ==> |TakeStrings(n, s).value.1| <= |s|
  {
    if TakeStrings(n, s).Some? {
      var t := TakeStrings(n, s).value;
      StringsIff(n, s, t.0, t.1);
    }
  }

  function ParsePrivate<K>(algs: Algorithms<K>, s: seq<byte>): Result<UserKey<K>> {
    var check0 := TakeUint32(s);
    if check0.None? then Err("decryption check failed")
    else
      var check1 := TakeUint32(check0.value.1);
      if check1.None? || check0.value.0 != check1.value.0 then Err("decryption check failed")
      else ParseKey(algs, check1.value.1)
  }

  /** The private section that holds one key. */
  ghost predicate IsPrivate<K>(algs: Algorithms<K>, key: UserKey<K>, check: uint32, name: seq<byte>,
                               pieces: seq<seq<byte>>, comment: seq<byte>, padding: seq<byte>, s: seq<byte>) {
    && |name| < TWO32 && |comment| < TWO32 && (forall i :: 0 <= i < |pieces| ==> |pieces[i]| < TWO32)
    && Printed(name) in algs.npieces && algs.npieces[Printed(name)] == |pieces|
    && algs.createKey(Printed(name), Strs(pieces)) == Some(key.data)
    && key.comment == Printed(comment) && IsPadding(padding)
    && s == Bytes4(check) + (Bytes4(check) + (Str(name) + (Strs(pieces) + (Str(comment) + padding))))
  }

  /** openssh_new_read accepts exactly such sections, and yields the key that they hold. */
  lemma PrivateIff<K>(algs: Algorithms<K>, s: seq<byte>, key: UserKey<K>)
    ensures ParsePrivate(algs, s) == Ok(key) <==>
            exists check, name, pieces, comment, padding :: IsPrivate(algs, key, check, name, pieces, comment, padding, s)
  {
    if ParsePrivate(algs, s) == Ok(key) {
      PrivateHolds(algs, s, key);
    }
    if check, name, pieces, comment, padding :| IsPrivate(algs, key, check, name, pieces, comment, padding, s) {
      PrivateParses(algs, s, key, check, name, pieces, comment, padding);
    }
  }

  lemma PrivateHolds<K>(algs: Algorithms<K>, s: seq<byte>, key: UserKey<K>)
    requires ParsePrivate(algs, s) == Ok(key)
    ensures exists check, name, pieces, comment, padding ::
              IsPrivate(algs, key, check, name, pieces, comment, padding, s)
  {
    hide TakeString, TakeStrings, TakeUint32, Str, Strs, Bytes4, IsPadding, Printed;
    var check0 := TakeUint32(s).value;
    var check1 := TakeUint32(check0.1).value;
    var name := TakeString(check1.1).value;
    var n := algs.npieces[Printed(name.0)];
    var pieces := TakeStrings(n, name.1).value;
    var comment := TakeString(pieces.1).value;
    Uint32Iff(s, check0.0, check0.1);
    Uint32Iff(check0.1, check1.0, check1.1);
    StringIff(check1.1, name.0, name.1);
    StringsIff(n, name.1, pieces.0, pieces.1);
    StringIff(pieces.1, comment.0, comment.1);
    assert name.1[..|name.1| - |pieces.1|] == Strs(pieces.0);
    assert IsPrivate(algs, key, check0.0, name.0, pieces.0, comment.0, comment.1, s);
  }

  lemma PrivateParses<K>(algs: Algorithms<K>, s: seq<byte>, key: UserKey<K>, check: uint32, name: seq<byte>,
                         pieces: seq<seq<byte>>, comment: seq<byte>, padding: seq<byte>)
    requires IsPrivate(algs, key, check, name, pieces, comment, padding, s)
    ensures ParsePrivate(algs, s) == Ok(key)
  {
    hide TakeString, TakeStrings, TakeUint32, Str, Strs, Bytes4, IsPadding, Printed, ParsePrivate;
    SectionParses(algs, s, check, name, pieces, comment, padding);
  }

  lemma SectionParses<K>(algs: Algorithms<K>, s: seq<byte>, check: uint32, name: seq<byte>,
                         pieces: seq<seq<byte>>, comment: seq<byte>, padding: seq<byte>)
    requires |name| < TWO32 && |comment| < TWO32 && forall i :: 0 <= i < |pieces| ==> |pieces[i]| < TWO32
    requires Printed(name) in algs.npieces && algs.npieces[Printed(name)] == |pieces| && IsPadding(padding)
    requires s == Bytes4(check) + (Bytes4(check) + (Str(name) + (Strs(pieces) + (Str(comment) + padding))))
    ensures ParsePrivate(algs, s) == match algs.createKey(Printed(name), Strs(pieces))
                                     case Some(data) => Ok(UserKey(data, Printed(comment)))
                                     case None => Err("unable to create key data structure")
  {
    hide TakeString, TakeStrings, TakeUint32, Str, Strs, Bytes4, IsPadding, Printed;
    var s3 := Str(comment) + padding;
    var s2 := Strs(pieces) + s3;
    var s1 := Str(name) + s2;
    Uint32Iff(s, check, Bytes4(check) + s1);
    Uint32Iff(Bytes4(check) + s1, check, s1);
    StringIff(s1, name, s2);
    StringsIff(|pieces|, s2, pieces, s3);
    StringIff(s3, comment, padding);
    assert s2[..|s2| - |s3|] == Strs(pieces);
  }

  /** The part of openssh_new_read after decryption. */
  method ReadPrivate<K>(algs: Algorithms<K>, private: seq<byte>) returns (r: Result<UserKey<K>>)
    ensures r == ParsePrivate(algs, private)
  {
    hide TakeString, TakeUint32, TakeStrings, Printed, IsPadding;
    var cur := new Cursor(private);
    var check0 := cur.GetUint32();
    if check0.None? {
      return Err("decryption check failed");
    }
    var check1 := cur.GetUint32();
    if check1.None? || check0.value != check1.value {
      return Err("decryption check failed");
    }
    r := ReadKey(algs, cur);
  }

  method ReadKey<K>(algs: Algorithms<K>, cur: Cursor) returns (r: Result<UserKey<K>>)
    requires cur.Valid()
    modifies cur
    ensures r == ParseKey(algs, old(cur.Rest()))
  {
    hide TakeString, TakeUint32, TakeStrings, Printed, IsPadding;
    var name := cur.GetString();
    if name.None? {
      return Err("expected key type in private string");
    }
    var alg := Printed(name.value);
    if alg !in algs.npieces {
      return Err("private key type not recognised\n");
    }
    var start := cur.data;
    ghost var rest := cur.Rest();
    var skipped := SkipStrings(cur, algs.npieces[alg]);
    if !skipped {
      return Err("ran out of data in mid-private-key");
    }
    assert cur.buf[start..cur.data] == rest[..|rest| - |cur.Rest()|];
    var data := algs.createKey(alg, cur.buf[start..cur.data]);
    if data.None? {
      return Err("unable to create key data structure");
    }
    var comment := cur.GetString();
    if comment.None? {
      return Err("ran out of data at key comment");
    }
    var padded := CheckPadding(cur);
    if !padded {
      return Err("padding at end of private string did not match");
    }
    return Ok(UserKey(data.value, Printed(comment.value)));
  }

  method SkipStrings(cur: Cursor, n: nat) returns (ok: bool)
    requires cur.Valid()
    modifies cur
    ensures cur.Valid() && cur.data >= old(cur.data) && cur.data + cur.datalen == old(cur.data + cur.datalen)
    ensures var t := TakeStrings(n, old(cur.Rest())); if ok then t.Some? && t.value.1 == cur.Rest() else t.None?
  {
    hide TakeString;
    var i := 0;
    ghost var s := cur.Rest();
    while i < n
      invariant 0 <= i <= n && cur.Valid()
      invariant cur.data >= old(cur.data) && cur.data + cur.datalen == old(cur.data + cur.datalen)
      invariant var t, u := TakeStrings(n, s), TakeStrings(n - i, cur.Rest());
                t.Some? == u.Some? && (t.Some? ==> t.value.1 == u.value.1)
    {
      var piece := cur.GetString();
      if piece.None? {
        return false;
      }
      i := i + 1;
    }
    return true;
  }

  method CheckPadding(cur: Cursor) returns (ok: bool)
    requires cur.Valid()
    ensures ok == IsPadding(cur.Rest())
  {
    var i := 0;
    while i < cur.datalen
      invariant 0 <= i <= cur.datalen && forall j :: 0 <= j < i ==> cur.Rest()[j] == (j + 1) % 256
    {
      if cur.buf[cur.data + i] != (i + 1) % 256 {
        assert cur.Rest()[i] != (i + 1) % 256;
        return false;
      }
      i := i + 1;
    }
    return true;
  }

  // Decryption and the whole reader.

  /** openssh_bcrypt, and aes_ssh2_encrypt_blk and aes_ssh2_decrypt_blk under 48 bytes of key and IV. */
  datatype Crypto = Crypto(kdf: (seq<byte>, seq<byte>, uint32) -> seq<byte>,
                           encrypt: (seq<byte>, seq<byte>) -> seq<byte>,
                           decrypt: (seq<byte>, seq<byte>) -> seq<byte>)
  {
    ghost predicate Inverse() {
      forall k, d :: |d| % 16 == 0 ==> |encrypt(k, d)| == |d| && decrypt(k, encrypt(k, d)) == d
    }

    function KeyMaterial(k: Kdf, passphrase: seq<byte>): seq<byte> {
      match k
      case NoKdf => seq(48, _ => 0)
      case Bcrypt(salt, rounds) => kdf(passphrase, salt, rounds)
    }
  }

  /** openssh_new_read, on the container that load_openssh_new_key found. */
  method ReadContainer<K>(algs: Algorithms<K>, crypto: Crypto, c: Container, passphrase: seq<byte>)
    returns (r: Result<UserKey<K>>)
    ensures c.cipher.NoCipher? ==> r == ParsePrivate(algs, c.private)
    ensures c.cipher.Aes256Cbc? && |c.private| % 16 != 0 ==> r.Err?
    ensures c.cipher.Aes256Cbc? && |c.private| % 16 == 0 ==>
              r == match c.kdf
                   case NoKdf => ParsePrivate(algs, crypto.decrypt(seq(48, _ => 0), c.private))
                   case Bcrypt(salt, rounds) =>
                     ParsePrivate(algs, crypto.decrypt(crypto.kdf(passphrase, salt, rounds), c.private))
  {
    hide ParsePrivate;
    var private := c.private;
    if c.cipher.Aes256Cbc? {
      if |private| % 16 != 0 {
        return Err("private key container length is not a multiple of AES block size\n");
      }
      private := crypto.decrypt(crypto.KeyMaterial(c.kdf, passphrase), private);
    }
    r := ReadPrivate(algs, private);
  }

  // The writer.

  function Padding(n: nat): (s: seq<byte>)
    requires n < 256
    ensures |s| == n && IsPadding(s)
  {
    seq(n, i requires 0 <= i < n => i + 1)
  }

  /** The private section before padding. */
  function Unpadded(check: uint32, name: seq<byte>, privblob: seq<byte>, comment: seq<byte>): seq<byte>
    requires |name| < TWO32 && |comment| < TWO32
  {
    Bytes4(check) + Bytes4(check) + Str(name) + privblob + Str(comment)
  }

  /** The bytes that bring the private section to a multiple of 16: at least one, at most 16. */
  function Padded(s: seq<byte>): (r: seq<byte>)
    ensures |r| % 16 == 0 && |s| < |r| <= |s| + 16
  {
    s + Padding(16 - |s| % 16)
  }

  /** memcpy at p, and how far p then moves. */
  method PutBytes(out: array<byte>, p: nat, s: seq<byte>) returns (p': nat)
    requires p + |s| <= out.Length
    modifies out
    ensures p' == p + |s| && out[..p'] == old(out[..p]) + s && out[p'..] == old(out[p'..])
  {
    var n := 0;
    while n < |s|
      invariant 0 <= n <= |s| && out[..p + n] == old(out[..p]) + s[..n] && out[p + n..] == old(out[p + n..])
    {
      out[p + n] := s[n];
      n := n + 1;
    }
    p' := p + n;
  }

  method PutUint32(out: array<byte>, p: nat, w: uint32) returns (p': nat)
    requires p + 4 <= out.Length
    modifies out
    ensures p' == p + 4 && out[..p'] == old(out[..p]) + Bytes4(w) && out[p'..] == old(out[p'..])
  {
    p' := PutBytes(out, p, Bytes4(w));
  }

  method PutString(out: array<byte>, p: nat, s: seq<byte>) returns (p': nat)
    requires |s| < TWO32 && p + |s| + 4 <= out.Length
    modifies out
    ensures p' == p + |s| + 4 && out[..p'] == old(out[..p]) + Str(s)
  {
    p' := PutUint32(out, p, |s|);
    p' := PutBytes(out, p', s);
  }

  /** The fields that the writer chooses, with an empty private section. */
  function Fields(encrypted: bool, salt: seq<byte>): Container {
    Container(if encrypted then Aes256Cbc else NoCipher, if encrypted then Bcrypt(salt, 16) else NoKdf, [])
  }

  function Options(encrypted: bool, salt: seq<byte>): (r: seq<byte>)
    requires |salt| == 16
    ensures |r| == if encrypted then 24 else 0
  {
    if encrypted then Str(salt) + Bytes4(16) else []
  }

  /** Magic number, cipher and kdf names, kdf options, number of keys and public blob. */
  method WriteHead(out: array<byte>, encrypted: bool, salt: seq<byte>, pub: seq<byte>) returns (p: nat)
    requires |salt| == 16 && |pub| < 0x8000_0000 && 75 + |pub| <= out.Length
    modifies out
    ensures p <= 75 + |pub|
    ensures out[..p] == Head(Fields(encrypted, salt), Options(encrypted, salt)) + Bytes4(1) + Str(pub)
  {
    hide Str, Bytes4, Head, Options, Fields;
    p := WriteNames(out, encrypted, salt);
    p := PutUint32(out, p, 1);
    p := PutString(out, p, pub);
  }

  method WriteNames(out: array<byte>, encrypted: bool, salt: seq<byte>) returns (p: nat)
    requires |salt| == 16 && 67 <= out.Length
    modifies out
    ensures p <= 67 && out[..p] == Head(Fields(encrypted, salt), Options(encrypted, salt))
  {
    hide Str, Bytes4, Ascii, Options, MAGIC, CipherName, KdfName, Head;
    NamesWritten(encrypted, salt);
    p := PutBytes(out, 0, MAGIC);
    if !encrypted {
      p := PutString(out, p, Ascii("none"));
      p := PutString(out, p, Ascii("none"));
      p := PutString(out, p, []);
    } else {
      p := PutString(out, p, Ascii("aes256-cbc"));
      p := PutString(out, p, Ascii("bcrypt"));
      p := WriteOptions(out, p, salt);
    }
  }

  lemma NamesWritten(encrypted: bool, salt: seq<byte>)
    requires |salt| == 16
    ensures |MAGIC| == 15
    ensures !encrypted ==> Head(Fields(encrypted, salt), Options(encrypted, salt))
                           == [] + MAGIC + Str(Ascii("none")) + Str(Ascii("none")) + Str([])
    ensures encrypted ==> Head(Fields(encrypted, salt), Options(encrypted, salt))
                          == [] + MAGIC + Str(Ascii("aes256-cbc")) + Str(Ascii("bcrypt")) + Str(Options(true, salt))
  {
    hide Str, Bytes4, Ascii;
    assert [] + MAGIC == MAGIC;
  }

  /** The bcrypt options, whose length field is filled in afterwards. */
  method WriteOptions(out: array<byte>, q: nat, salt: seq<byte>) returns (p: nat)
    requires |salt| == 16 && q + 28 <= out.Length
    modifies out
    ensures p == q + 28 && out[..p] == old(out[..q]) + Str(Options(true, salt))
  {
    hide Bytes4, Str, Options;
    ghost var start := out[..q + 4];
    p := q + 4;
    p := PutString(out, p, salt);
    p := PutUint32(out, p, 16);
    Tail(start, Str(salt) + Bytes4(16), out[..p]);
    assert out[q + 4..p] == out[..p][q + 4..] && out[..q] == out[..p][..q];
    FillLength(out, q, p);
    OptionsString(salt);
    assert out[..p] == out[..q + 4] + out[q + 4..p];
  }

  lemma Tail(start: seq<byte>, body: seq<byte>, all: seq<byte>)
    requires |start| >= 4 && all == start + body
    ensures all[|start|..] == body && all[..|start| - 4] == start[..|start| - 4]
  {
  }

  lemma OptionsString(salt: seq<byte>)
    requires |salt| == 16
    ensures Str(Options(true, salt)) == Bytes4(24) + (Str(salt) + Bytes4(16))
  {
  }

  /** Goes back and fills in a length field. */
  method FillLength(out: array<byte>, at: nat, end: nat)
    requires at + 4 <= end <= out.Length && end - (at + 4) < TWO32
    modifies out
    ensures out[..at + 4] == old(out[..at]) + Bytes4(end - (at + 4)) && out[at + 4..end] == old(out[at + 4..end])
  {
    hide Bytes4;
    ghost var tail := out[at + 4..];
    var after := PutUint32(out, at, end - (at + 4));
    assert out[at + 4..end] == out[at + 4..][..end - (at + 4)];
    assert old(out[at + 4..end]) == tail[..end - (at + 4)];
  }

  /** checkints, key type, private blob, comment and padding, from start on. */
  method WritePrivate(out: array<byte>, start: nat, check: uint32, name: seq<byte>, privblob: seq<byte>, comment: seq<byte>)
    returns (p: nat)
    requires |name| < 0x8000_0000 && |comment| < 0x8000_0000
    requires start + 32 + |name| + |privblob| + |comment| <= out.Length
    modifies out
    ensures start <= p <= start + 32 + |name| + |privblob| + |comment|
    ensures out[..p] == old(out[..start]) + Padded(Unpadded(check, name, privblob, comment))
  {
    hide Str, Bytes4, Unpadded, Padded, Padding;
    p := PutUint32(out, start, check);
    p := PutUint32(out, p, check);
    p := PutString(out, p, name);
    p := PutBytes(out, p, privblob);
    p := PutString(out, p, comment);
    ghost var p0 := p;
    p := WritePadding(out, p, start);
    PrivateBytes(old(out[..start]), check, name, privblob, comment, p - p0);
  }

  lemma PrivateBytes(before: seq<byte>, check: uint32, name: seq<byte>, privblob: seq<byte>, comment: seq<byte>, pad: nat)
    requires |name| < TWO32 && |comment| < TWO32
    requires pad == 16 - (16 + |name| + |privblob| + |comment|) % 16
    ensures before + Bytes4(check) + Bytes4(check) + Str(name) + privblob + Str(comment) + Padding(pad)
            == before + Padded(Unpadded(check, name, privblob, comment))
  {
    hide Bytes4, Str, Padding;
    var u := Unpadded(check, name, privblob, comment);
    assert before + Bytes4(check) + Bytes4(check) + Str(name) + privblob + Str(comment) == before + u;
  }

  /** The do-while loop that writes 1, 2, 3, ... until the section is a multiple of 16. */
  method WritePadding(out: array<byte>, p0: nat, start: nat) returns (p: nat)
    requires start <= p0 && p0 + 16 <= out.Length
    modifies out
    ensures p0 < p <= p0 + 16 && out[..p] == old(out[..p0]) + Padding(p - p0) && (p - start) % 16 == 0
    ensures p - p0 == 16 - (p0 - start) % 16
  {
    var padvalue := 1;
    p := p0;
    ghost var need := 16 - (p0 - start) % 16;
    out[p] := padvalue;
    p, padvalue := p + 1, padvalue + 1;
    NextMultiple(p0 - start, 1);
    while (p - start) % 16 != 0
      invariant p0 < p <= p0 + need && padvalue == p - p0 + 1
      invariant (p - start) % 16 == 0 <==> p == p0 + need
      invariant out[..p] == old(out[..p0]) + Padding(p - p0)
      decreases p0 + need - p
    {
      out[p] := padvalue;
      p, padvalue := p + 1, padvalue + 1;
      NextMultiple(p0 - start, p - p0);
    }
  }

  lemma NextMultiple(gap: nat, i: nat)
    requires 1 <= i <= 16 - gap % 16
    ensures (gap + i) % 16 == 0 <==> i == 16 - gap % 16
  {
  }

  /** What goes into the container: the padded private section, encrypted when there is a passphrase. */
  function Sealed(crypto: Crypto, passphrase: Option<seq<byte>>, salt: seq<byte>, section: seq<byte>): seq<byte> {
    if passphrase.None? then section
    else crypto.encrypt(crypto.KeyMaterial(Bcrypt(salt, 16), passphrase.value), section)
  }

  /** openssh_new_write, up to the base64 encoding of outblob[..len]. */
  method WriteFile(crypto: Crypto, pub: seq<byte>, name: seq<byte>, privblob: seq<byte>, comment: seq<byte>,
                   passphrase: Option<seq<byte>>, salt: seq<byte>, check: uint32)
    returns (outblob: array<byte>, len: nat)
    requires |salt| == 16 && 188 + |pub| + |name| + |privblob| + |comment| < 0x8000_0000 && crypto.Inverse()
    ensures fresh(outblob) && outblob.Length == 188 + |pub| + |name| + |privblob| + |comment| && len < outblob.Length
    ensures var c := Fields(passphrase.Some?, salt);
            var private := Sealed(crypto, passphrase, salt, Padded(Unpadded(check, name, privblob, comment)));
            IsFile(c.(private := private), Options(passphrase.Some?, salt), pub, [], outblob[..len])
    ensures var section := Padded(Unpadded(check, name, privblob, comment));
            Sealed(crypto, passphrase, salt, section)
            == if passphrase.None? then section else crypto.encrypt(crypto.kdf(passphrase.value, salt, 16), section)
  {
    hide Str, Bytes4, Head, Options, Fields, Padded, Unpadded, Sealed, IsFile, Crypto.Inverse, IsOptions, Crypto.KeyMaterial;
    var maxsize := 188 + |pub| + |name| + |privblob| + |comment|;
    outblob := new byte[maxsize];
    var lengthField := WriteHead(outblob, passphrase.Some?, salt, pub);
    ghost var head := outblob[..lengthField];
    var start := lengthField + 4;
    len := WritePrivate(outblob, start, check, name, privblob, comment);
    ghost var section := Padded(Unpadded(check, name, privblob, comment));
    assert outblob[..lengthField] == head by {
      assert outblob[..len][..lengthField] == outblob[..start][..lengthField];
    }
    assert outblob[start..len] == section by {
      assert outblob[..len][start..] == section;
    }
    FillLength(outblob, lengthField, len);
    if passphrase.Some? {
      var keybuf := crypto.KeyMaterial(Bcrypt(salt, 16), passphrase.value);
      EncryptLength(crypto, keybuf, section);
      Encrypt(crypto, keybuf, outblob, start, len);
    }
    SealedIs(crypto, passphrase, salt, section);
    FileWritten(Fields(passphrase.Some?, salt), passphrase.Some?, salt, pub,
                Sealed(crypto, passphrase, salt, section), outblob[..len]);
  }

  /** Encrypts the private section where it is. */
  method Encrypt(crypto: Crypto, keybuf: seq<byte>, out: array<byte>, start: nat, end: nat)
    requires start <= end <= out.Length && |crypto.encrypt(keybuf, out[start..end])| == end - start
    modifies out
    ensures out[..start] == old(out[..start]) && out[start..end] == crypto.encrypt(keybuf, old(out[start..end]))
  {
    var p := PutBytes(out, start, crypto.encrypt(keybuf, out[start..end]));
    assert out[..start] == out[..p][..start] && out[start..end] == out[..p][start..];
  }

  lemma EncryptLength(crypto: Crypto, keybuf: seq<byte>, section: seq<byte>)
    requires crypto.Inverse() && |section| % 16 == 0
    ensures |crypto.encrypt(keybuf, section)| == |section| && crypto.decrypt(keybuf, crypto.encrypt(keybuf, section)) == section
  {
  }

  lemma SealedIs(crypto: Crypto, passphrase: Option<seq<byte>>, salt: seq<byte>, section: seq<byte>)
    ensures passphrase.None? ==> Sealed(crypto, passphrase, salt, section) == section
    ensures passphrase.Some? ==> Sealed(crypto, passphrase, salt, section)
                                 == crypto.encrypt(crypto.KeyMaterial(Bcrypt(salt, 16), passphrase.value), section)
    ensures passphrase.Some? ==> Sealed(crypto, passphrase, salt, section)
                                 == crypto.encrypt(crypto.kdf(passphrase.value, salt, 16), section)
  {
  }

  lemma FileWritten(c: Container, encrypted: bool, salt: seq<byte>, pub: seq<byte>, private: seq<byte>, file: seq<byte>)
    requires |salt| == 16 && c == Fields(encrypted, salt) && |pub| < TWO32 && |private| < TWO32
    requires file == Head(c, Options(encrypted, salt)) + Bytes4(1) + Str(pub) + Bytes4(|private|) + private
    ensures IsFile(c.(private := private), Options(encrypted, salt), pub, [], file)
  {
    hide Bytes4, CipherName, KdfName;
    var h := Head(c, Options(encrypted, salt));
    assert h + Bytes4(1) + Str(pub) + Bytes4(|private|) + private == h + (Bytes4(1) + (Str(pub) + (Str(private) + [])));
  }

  lemma FieldsAre(encrypted: bool, salt: seq<byte>)
    ensures Fields(encrypted, salt).cipher == if encrypted then Aes256Cbc else NoCipher
    ensures Fields(encrypted, salt).kdf == if encrypted then Bcrypt(salt, 16) else NoKdf
  {
  }

  lemma SectionReads<K>(algs: Algorithms<K>, check: uint32, name: seq<byte>, pieces: seq<seq<byte>>, comment: seq<byte>)
    requires |name| < TWO32 && |comment| < TWO32 && forall i :: 0 <= i < |pieces| ==> |pieces[i]| < TWO32
    requires 0 !in name && 0 !in comment && name in algs.npieces && algs.npieces[name] == |pieces|
    ensures ParsePrivate(algs, Padded(Unpadded(check, name, Strs(pieces), comment)))
            == match algs.createKey(name, Strs(pieces))
               case Some(data) => Ok(UserKey(data, comment))
               case None => Err("unable to create key data structure")
  {
    hide TakeString, TakeStrings, TakeUint32, Str, Strs, Bytes4, IsPadding, Printed, Padding, ParsePrivate;
    var u := Unpadded(check, name, Strs(pieces), comment);
    var padding := Padding(16 - |u| % 16);
    assert Padded(u) == Bytes4(check) + (Bytes4(check) + (Str(name) + (Strs(pieces) + (Str(comment) + padding))));
    PrintedWhole(name);
    PrintedWhole(comment);
    SectionParses(algs, Padded(u), check, name, pieces, comment, padding);
  }

  /** Saving a key and loading it again gives the same key and comment. */
  method SaveThenLoad<K>(algs: Algorithms<K>, crypto: Crypto, pub: seq<byte>, name: seq<byte>, pieces: seq<seq<byte>>,
                         comment: seq<byte>, passphrase: Option<seq<byte>>, salt: seq<byte>, check: uint32)
    returns (r: Result<UserKey<K>>)
    requires forall i :: 0 <= i < |pieces| ==> |pieces[i]| < TWO32
    requires |salt| == 16 && 188 + |pub| + |name| + |Strs(pieces)| + |comment| < 0x8000_0000 && crypto.Inverse()
    requires 0 !in name && 0 !in comment && name in algs.npieces && algs.npieces[name] == |pieces|
    ensures match algs.createKey(name, Strs(pieces))
            case Some(data) => r == Ok(UserKey(data, comment))
            case None => r.Err?
  {
    hide Str, Strs, Bytes4, Head, Options, Fields, Padded, Unpadded, Sealed, IsFile, Crypto.Inverse, ParseFile, ParsePrivate,
         Crypto.KeyMaterial;
    var outblob, len := WriteFile(crypto, pub, name, Strs(pieces), comment, passphrase, salt, check);
    ghost var section := Padded(Unpadded(check, name, Strs(pieces), comment));
    ghost var written := Fields(passphrase.Some?, salt).(private := Sealed(crypto, passphrase, salt, section));
    FileParses(written, Options(passphrase.Some?, salt), pub, [], outblob[..len]);
    var c := LoadFile(outblob[..len]);
    FieldsAre(passphrase.Some?, salt);
    SealedIs(crypto, passphrase, salt, section);
    EncryptLength(crypto, crypto.kdf(if passphrase.Some? then passphrase.value else [], salt, 16), section);
    r := ReadContainer(algs, crypto, c.value, if passphrase.Some? then passphrase.value else []);
    SectionReads(algs, check, name, pieces, comment);
  }
}
