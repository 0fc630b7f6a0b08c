/**
 The fingerprint that decides whether two keyed uploads are the same request
 (core/api/upload_idempotency.go). Strings are byte strings, one char per byte.
 The foreign functions are parameters: SHA-256 in hexadecimal, and float
 formatting with the parser that undoes it.
 */
module UploadFingerprint {
  import opened Options
  import opened Decimal

  type Byte = c: char | c as int < 256

  type Bytes = seq<Byte>

  /** A Go string: its length is a positive int64. */
  type GoString = s: Bytes | |s| < 0x8000_0000_0000_0000 witness []

  type Int64 = n: int | -0x8000_0000_0000_0000 <= n < 0x8000_0000_0000_0000

  /** An IEEE-754 double: its sign bit and the rest of the pattern. */
  datatype Float = Float(negative: bool, magnitude: nat)

  predicate IsFinite(f: Float) {
    f.magnitude < 0x7ff0_0000_0000_0000
  }

  type Confidence = f: Float | IsFinite(f) witness Float(false, 0)

  datatype Device = Device(content: Bytes, confidence: Confidence, language: GoString)

  datatype Request = Request(
    system: Int64, operation: GoString, predecessor: Int64, blob: GoString,
    filename: GoString, mtime: Option<Int64>, device: Option<Device>)

  datatype Foreign = Foreign(sha: Bytes -> GoString, format: Confidence -> GoString, parse: GoString -> Confidence)

  ghost predicate FormatRoundTrips(env: Foreign) {
    forall f :: env.parse(env.format(f)) == f
  }

  // ---------- the fields ----------

  /** Negative zero compares equal to zero, and the program then stores plain zero. */
  function Normalised(f: Confidence): Confidence {
    if f.magnitude == 0 then Float(false, 0) else f
  }

  function TrimSlashes(path: GoString): (r: GoString)
    ensures |r| <= |path|
    ensures r != [] ==> r[|r| - 1] != '/'
    ensures path != [] && path[|path| - 1] != '/' ==> r == path
  {
    if path != [] && path[|path| - 1] == '/' then TrimSlashes(path[..|path| - 1]) else path
  }

  /** What follows the last slash. */
  function LastElement(path: GoString): (r: GoString)
    ensures |r| <= |path| && '/' !in r
    ensures '/' !in path ==> r == path
    ensures path != [] && path[|path| - 1] != '/' ==> r != []
  {
    if path == [] || path[|path| - 1] == '/' then []
    else LastElement(path[..|path| - 1]) + [path[|path| - 1]]
  }

  /** `filepath.Base`. */
  function Base(path: GoString): (r: GoString)
    ensures r != [] && (r == "/" || '/' !in r)
  {
    if path == [] then "."
    else
      var trimmed := TrimSlashes(path);
      if trimmed == [] then "/" else LastElement(trimmed)
  }

  /** A directory in front and slashes behind do not change the name. */
  lemma {:induction false} BaseDropsDirectories(dir: Bytes, name: Bytes, slashes: Bytes)
    requires name != [] && '/' !in name && (forall i :: 0 <= i < |slashes| ==> slashes[i] == '/')
    requires |dir| + 1 + |name| + |slashes| < 0x8000_0000_0000_0000
    ensures Base(dir + ['/'] + name + slashes) == name
    ensures Base(name + slashes) == name
  {
    TrimmedIs(dir + ['/'] + name, slashes);
    TrimmedIs(name, slashes);
    assert (dir + ['/'] + name)[|dir| + |name|] in name;
    LastElementIs(dir + ['/'], name);
    assert [] + name == name;
    LastElementIs([], name);
  }

  lemma {:induction false} TrimmedIs(path: Bytes, slashes: Bytes)
    requires path != [] && path[|path| - 1] != '/' && (forall i :: 0 <= i < |slashes| ==> slashes[i] == '/')
    requires |path| + |slashes| < 0x8000_0000_0000_0000
    ensures TrimSlashes(path + slashes) == path
    decreases |slashes|
  {
    if slashes == [] {
      assert path + slashes == path;
    } else {
      var all := path + slashes;
      assert all[..|all| - 1] == path + slashes[..|slashes| - 1];
      TrimmedIs(path, slashes[..|slashes| - 1]);
    }
  }

  lemma {:induction false} LastElementIs(front: Bytes, name: Bytes)
    requires '/' !in name && (front == [] || front[|front| - 1] == '/') && |front| + |name| < 0x8000_0000_0000_0000
    ensures LastElement(front + name) == name
    decreases |name|
  {
    if name == [] {
      assert front + name == front;
    } else {
      var all := front + name;
      assert all[..|all| - 1] == front + name[..|name| - 1];
      assert all[|all| - 1] == name[|name| - 1] && name[|name| - 1] in name;
      LastElementIs(front, name[..|name| - 1]);
    }
  }

  /** Confidences are told apart but for the sign of zero. */
  lemma NormalisedExactly(f: Confidence, g: Confidence)
    ensures Normalised(f) == Normalised(g) <==> f == g || (f.magnitude == 0 && g.magnitude == 0)
  {
  }

  /** Sending an already bare name gives the same fingerprint field. */
  lemma BaseIdempotent(path: GoString)
    ensures Base(Base(path)) == Base(path)
  {
    var b := Base(path);
    if b == "/" {
      assert TrimSlashes(b[..0]) == [];
      assert TrimSlashes(b) == [];
    } else {
      assert b[|b| - 1] in b;
    }
  }

  lemma {:induction false} ItoaBytes(n: nat)
    ensures forall i :: 0 <= i < |Itoa(n)| ==> Itoa(n)[i] as int < 256
  {
    if n >= 10 {
      ItoaBytes(n / 10);
    }
  }

  function FormatInt64(n: Int64): (r: GoString) {
    ItoaBytes(Magnitude(n));
    ItoaShort(Magnitude(n));
    FormatInt(n)
  }

  function TimeText(mtime: Option<Int64>): GoString {
    if mtime.None? then "" else FormatInt64(mtime.value)
  }

  function DigestText(env: Foreign, device: Option<Device>): GoString {
    if device.None? then "" else env.sha(device.value.content)
  }

  function ConfidenceText(env: Foreign, device: Option<Device>): GoString {
    if device.None? then "" else env.format(Normalised(device.value.confidence))
  }

  function LanguageText(device: Option<Device>): GoString {
    if device.None? then "" else device.value.language
  }

  function Fields(env: Foreign, r: Request): (fields: seq<GoString>)
    ensures |fields| == 10
  {
    [r.operation, FormatInt64(r.predecessor), r.blob, Base(r.filename),
     if r.mtime.None? then "0" else "1", TimeText(r.mtime),
     if r.device.None? then "" else "device_ocr", DigestText(env, r.device), ConfidenceText(env, r.device), LanguageText(r.device)]
  }

  /** The fields in their order. */
  lemma FieldOrder(env: Foreign, r: Request)
    ensures var f := Fields(env, r);
      && f[0] == r.operation && f[1] == FormatInt64(r.predecessor) && f[2] == r.blob && f[3] == Base(r.filename)
      && (r.mtime.None? ==> f[4] == "0" && f[5] == "") && (r.mtime.Some? ==> f[4] == "1" && f[5] == FormatInt64(r.mtime.value))
      && (r.device.None? ==> f[6] == "" && f[7] == "" && f[8] == "" && f[9] == "")
      && (r.device.Some? ==>
            && f[6] == "device_ocr" && f[7] == env.sha(r.device.value.content)
            && f[8] == env.format(Normalised(r.device.value.confidence)) && f[9] == r.device.value.language)
  {
  }

  // ---------- the hashed stream ----------

  function Pow256(k: nat): nat {
    if k == 0 then 1 else 256 * Pow256(k - 1)
  }

  function BigEndian(n: nat, width: nat): (r: Bytes)
    ensures |r| == width
  {
    if width == 0 then [] else BigEndian(n / 256, width - 1) + [(n % 256) as char]
  }

  function BigEndianValue(s: Bytes): nat {
    if s == [] then 0 else 256 * BigEndianValue(s[..|s| - 1]) + s[|s| - 1] as int
  }

  lemma {:induction false} BigEndianRoundTrip(n: nat, width: nat)
    requires n < Pow256(width)
    ensures BigEndianValue(BigEndian(n, width)) == n
  {
    if width > 0 {
      BigEndianRoundTrip(n / 256, width - 1);
      assert BigEndian(n, width)[..width - 1] == BigEndian(n / 256, width - 1);
    }
  }

  function Frame(field: GoString): Bytes {
    BigEndian(|field|, 8) + field
  }

  function Encode(fields: seq<GoString>): Bytes {
    if fields == [] then [] else Frame(fields[0]) + Encode(fields[1..])
  }

  lemma EightBytes()
    ensures Pow256(8) == 0x1_0000_0000_0000_0000
  {
    assert Pow256(1) == 256;
    assert Pow256(2) == 0x1_0000;
    assert Pow256(4) == 256 * (256 * Pow256(2));
    assert Pow256(6) == 256 * (256 * Pow256(4));
  }

  /** A frame can be read off the front of any stream. */
  lemma FrameIsPrefixFree(a: GoString, b: GoString, x: Bytes, y: Bytes)
    requires Frame(a) + x == Frame(b) + y
    ensures a == b && x == y
  {
    EightBytes();
    BigEndianRoundTrip(|a|, 8);
    BigEndianRoundTrip(|b|, 8);
    var s, t := Frame(a) + x, Frame(b) + y;
    assert BigEndian(|a|, 8) == s[..8] && BigEndian(|b|, 8) == t[..8];
    assert a == s[8..8 + |a|] && b == t[8..8 + |b|];
    assert x == s[8 + |a|..] && y == t[8 + |b|..];
  }

  /** Different field lists, of whatever lengths, give different streams. */
  lemma {:induction false} EncodeInjective(a: seq<GoString>, b: seq<GoString>)
    requires Encode(a) == Encode(b)
    ensures a == b
  {
    if a != [] && b != [] {
      FrameIsPrefixFree(a[0], b[0], Encode(a[1..]), Encode(b[1..]));
      EncodeInjective(a[1..], b[1..]);
      assert a == [a[0]] + a[1..] && b == [b[0]] + b[1..];
    }
  }

  function Fingerprint(env: Foreign, r: Request): Bytes {
    FormatInt64(r.system) + ":" + env.sha(Encode(Fields(env, r)))
  }

  // ---------- what it distinguishes ----------

  /** Equal system and equal request, as far as the archive tells requests apart. */
  predicate SameDevice(env: Foreign, a: Option<Device>, b: Option<Device>) {
    match (a, b)
    case (None, None) => true
    case (Some(x), Some(y)) =>
      && env.sha(x.content) == env.sha(y.content)
      && Normalised(x.confidence) == Normalised(y.confidence)
      && x.language == y.language
    case _ => false
  }

  predicate SameRequest(env: Foreign, a: Request, b: Request) {
    && a.operation == b.operation
    && a.predecessor == b.predecessor
    && a.blob == b.blob
    && Base(a.filename) == Base(b.filename)
    && a.mtime == b.mtime
    && SameDevice(env, a.device, b.device)
  }

  lemma FieldsTellRequestsApart(env: Foreign, a: Request, b: Request)
    requires FormatRoundTrips(env)
    ensures Fields(env, a) == Fields(env, b) <==> SameRequest(env, a, b)
  {
    var f, g := Fields(env, a), Fields(env, b);
    FormatIntInjective(a.predecessor, b.predecessor);
    if a.mtime.Some? && b.mtime.Some? {
      FormatIntInjective(a.mtime.value, b.mtime.value);
    }
    if f == g {
      assert f[0] == g[0] && f[1] == g[1] && f[2] == g[2] && f[3] == g[3];
      assert f[4] == g[4] && f[5] == g[5];
      assert f[6] == g[6] && f[7] == g[7] && f[8] == g[8] && f[9] == g[9];
      if a.device.Some? && b.device.Some? {
        var x, y := Normalised(a.device.value.confidence), Normalised(b.device.value.confidence);
        assert env.parse(env.format(x)) == x && env.parse(env.format(y)) == y;
      }
    }
  }

  /** The bytes given to the hash are equal exactly for the same request. */
  lemma HashedBytesIdentifyRequest(env: Foreign, a: Request, b: Request)
    requires FormatRoundTrips(env)
    ensures Encode(Fields(env, a)) == Encode(Fields(env, b)) <==> SameRequest(env, a, b)
  {
    FieldsTellRequestsApart(env, a, b);
    if Encode(Fields(env, a)) == Encode(Fields(env, b)) {
      EncodeInjective(Fields(env, a), Fields(env, b));
    }
  }

  lemma PrefixSplits(a: Int64, b: Int64, x: Bytes, y: Bytes)
    requires FormatInt64(a) + ":" + x == FormatInt64(b) + ":" + y
    ensures a == b && x == y
  {
    var p, q := FormatInt64(a), FormatInt64(b);
    NoColon(a);
    NoColon(b);
    var s, t := p + ":" + x, q + ":" + y;
    assert s[|p|] == ':' && t[|q|] == ':';
    assert forall i :: 0 <= i < |q| ==> q[i] == t[i];
    assert forall i :: 0 <= i < |p| ==> p[i] == s[i];
    assert |p| == |q|;
    assert p == s[..|p|] && q == t[..|q|];
    assert x == s[|p| + 1..] && y == t[|q| + 1..];
    FormatIntInjective(a, b);
  }

  lemma NoColon(n: Int64)
    ensures ':' !in FormatInt64(n)
  {
    ItoaDigits(Magnitude(n));
  }

  /** Fingerprints agree exactly for the same request in the same system, unless the hash collides on the two. */
  lemma FingerprintIdentifiesRequest(env: Foreign, a: Request, b: Request)
    requires FormatRoundTrips(env)
    requires var x, y := Encode(Fields(env, a)), Encode(Fields(env, b)); env.sha(x) == env.sha(y) ==> x == y
    ensures Fingerprint(env, a) == Fingerprint(env, b) <==> a.system == b.system && SameRequest(env, a, b)
  {
    HashedBytesIdentifyRequest(env, a, b);
    if Fingerprint(env, a) == Fingerprint(env, b) {
      PrefixSplits(a.system, b.system, env.sha(Encode(Fields(env, a))), env.sha(Encode(Fields(env, b))));
    }
  }

  lemma {:induction false} EncodeSnoc(fields: seq<GoString>, last: GoString)
    ensures Encode(fields + [last]) == Encode(fields) + Frame(last)
  {
    if fields == [] {
      assert Encode([last]) == Frame(last) + Encode([last][1..]);
      assert Encode([last][1..]) == [];
      assert fields + [last] == [last];
    } else {
      EncodeSnoc(fields[1..], last);
      assert (fields + [last])[1..] == fields[1..] + [last];
    }
  }

  lemma EncodeNext(fields: seq<GoString>, i: nat)
    requires i < |fields|
    ensures Encode(fields[..i + 1]) == Encode(fields[..i]) + Frame(fields[i])
  {
    EncodeSnoc(fields[..i], fields[i]);
    assert fields[..i + 1] == fields[..i] + [fields[i]];
  }

  /** The loop that feeds the hash: each field behind its length. */
  method Feed(fields: seq<GoString>) returns (hashed: Bytes)
    ensures hashed == Encode(fields)
  {
    hashed := [];
    for i := 0 to |fields|
      invariant hashed == Encode(fields[..i])
    {
      EncodeNext(fields, i);
      hashed := hashed + (BigEndian(|fields[i]|, 8) + fields[i]);
    }
    assert fields[..|fields|] == fields;
  }

  method BuildUploadFingerprint(env: Foreign, r: Request) returns (fingerprint: Bytes)
    ensures fingerprint == Fingerprint(env, r)
  {
    var mtimePresent, mtime: GoString := "0", "";
    var source, digest, confidence, language: GoString := "", "", "", "";
    if r.mtime.Some? {
      mtimePresent, mtime := "1", FormatInt64(r.mtime.value);
    }
    if r.device.Some? {
      var device := r.device.value;
      source, digest := "device_ocr", env.sha(device.content);
      var value := device.confidence;
      if value.magnitude == 0 {
        value := Float(false, 0);
      }
      confidence, language := env.format(value), device.language;
    }
    var fields := [r.operation, FormatInt64(r.predecessor), r.blob, Base(r.filename),
                   mtimePresent, mtime, source, digest, confidence, language];
    assert fields == Fields(env, r);
    var hashed := Feed(fields);
    fingerprint := FormatInt64(r.system) + ":" + env.sha(hashed);
  }
}
