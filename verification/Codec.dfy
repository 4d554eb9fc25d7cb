/**
 The wire format: variable-length integers, hop paths, Traffic packets and length-prefixed frames.
 Bits that are set apart are added rather than ORed; a shift drops what leaves the 64-bit word.
 */
module Codec {
  import opened Words

  const MAX_PATH: nat := 1024
  const MAX_FRAME: nat := 1024 * 1024
  const TRAFFIC: u8 := 9

  datatype Error = Overflow | Truncated | Unterminated | PathTooLong | PrefixTooLong | FrameTooLarge

  // ---------------------------------------------------------------- variable-length integers

  function Uvarint(v: nat): (b: Bytes)
    ensures b != []
  {
    if v < 128 then [v] else [v % 128 + 128] + Uvarint(v / 128)
  }

  function Pow128(n: nat): (r: nat)
    ensures r > 0
  {
    if n == 0 then 1 else 128 * Pow128(n - 1)
  }

  function Low7(x: u8): (r: nat)
    ensures r < 128
  {
    x % 128
  }

  /** What a string of seven-bit groups stands for, lowest group first. */
  function Number(b: Bytes): nat {
    if b == [] then 0 else Low7(b[0]) + 128 * Number(b[1..])
  }

  /** How many bytes with the continuation bit come first. */
  function Run(data: Bytes): (e: nat)
    ensures e <= |data| && (e < |data| ==> data[e] < 128)
    ensures forall i | 0 <= i < e :: data[i] >= 128
  {
    if data == [] || data[0] < 128 then 0 else 1 + Run(data[1..])
  }

  /** A value modulo 2^64 and the bytes it took; ten bytes at most. */
  function Decoded(data: Bytes): (r: Result<(u64, nat), Error>)
    ensures r.Ok? ==> 0 < r.value.1 <= |data|
  {
    var e := Run(data);
    if e < |data| && e < 10 then Ok((Number(data[..e + 1]) % U64_MODULUS, e + 1))
    else if |data| > 10 then Err(Overflow)
    else Err(Truncated)
  }

  method EncodeUvarint(value: u64, buf: Bytes) returns (out: Bytes)
    ensures out == buf + Uvarint(value)
  {
    var v: nat := value;
    out := buf;
    while true
      invariant out + Uvarint(v) == buf + Uvarint(value)
      decreases v
    {
      var byte := v % 128;
      v := v / 128;
      if v == 0 {
        out := out + [byte];
        break;
      }
      ghost var before := out;
      out := out + [byte + 128];
      assert out + Uvarint(v) == before + ([byte + 128] + Uvarint(v));
    }
  }

  lemma {:induction false} NumberAppend(b: Bytes, x: u8)
    ensures Number(b + [x]) == Number(b) + Low7(x) * Pow128(|b|)
    decreases |b|
  {
    if b == [] {
      assert b + [x] == [x] && [x][1..] == [];
    } else {
      assert (b + [x])[1..] == b[1..] + [x];
      NumberAppend(b[1..], x);
      Reassociate(Low7(x), Pow128(|b| - 1));
    }
  }

  lemma Reassociate(a: nat, p: nat)
    ensures 128 * (a * p) == a * (128 * p)
  {
  }

  lemma {:induction false} NumberBelow(b: Bytes)
    ensures Number(b) < Pow128(|b|)
  {
    if b != [] {
      NumberBelow(b[1..]);
    }
  }

  /** The word after the group at index `i` is set: below the tenth group nothing is lost, and of the
      tenth only its lowest bit fits. */
  lemma GroupFits(b: Bytes, x: u8)
    requires |b| < 10
    ensures Number(b) < U64_MODULUS
    ensures Number(b) + Low7(x) * Pow128(|b|) % U64_MODULUS == Number(b + [x]) % U64_MODULUS
  {
    hide Number, Pow128;
    PowersOf128();
    NumberAppend(b, x);
    if |b| < 9 {
      NumberBelow(b + [x]);
      PowMonotone(|b| + 1, 9);
      NoWrap(Number(b), Low7(x) * Pow128(|b|));
    } else {
      NumberBelow(b);
      TopBit(Number(b), Low7(x));
    }
  }

  lemma NoWrap(n: nat, g: nat)
    requires n + g < 0x8000_0000_0000_0000
    ensures n < U64_MODULUS && n + g % U64_MODULUS == (n + g) % U64_MODULUS
  {
  }

  lemma TopBit(n: nat, g: nat)
    requires n < 0x8000_0000_0000_0000
    ensures n + (g * 0x8000_0000_0000_0000) % U64_MODULUS == (n + g * 0x8000_0000_0000_0000) % U64_MODULUS
  {
    var q, r := g / 2, g % 2;
    assert g * 0x8000_0000_0000_0000 == q * U64_MODULUS + r * 0x8000_0000_0000_0000;
  }

  lemma PowersOf128()
    ensures Pow128(9) == 0x8000_0000_0000_0000 && Pow128(10) > U64_MAX
  {
    assert Pow128(3) == 0x20_0000;
    assert Pow128(6) == 0x400_0000_0000;
  }

  lemma {:induction false} PowMonotone(a: nat, b: nat)
    requires a <= b
    ensures Pow128(a) <= Pow128(b)
  {
    if a < b {
      PowMonotone(a, b - 1);
    }
  }

  method DecodeUvarint(data: Bytes) returns (r: Result<(u64, nat), Error>)
    ensures r == Decoded(data)
  {
    hide Number, Pow128;
    var val: nat := 0;
    var i := 0;
    assert Number(data[..0]) == 0 by {
      NumberOfNothing();
    }
    while i < |data|
      invariant i <= |data| && i <= 10 && i <= Run(data)
      invariant val == Number(data[..i]) % U64_MODULUS
    {
      RunPast(data, i);
      if 7 * i >= 64 {
        return Err(Overflow);
      }
      GroupFits(data[..i], data[i]);
      assert data[..i] + [data[i]] == data[..i + 1];
      val := val + Low7(data[i]) * Pow128(i) % U64_MODULUS;
      if data[i] < 128 {
        return Ok((val, i + 1));
      }
      i := i + 1;
    }
    return Err(Truncated);
  }

  lemma NumberOfNothing()
    ensures Number([]) == 0
  {
  }

  lemma RunPast(data: Bytes, i: nat)
    requires i < |data| && i <= Run(data)
    ensures data[i] >= 128 <==> i + 1 <= Run(data)
  {
  }

  // round trips

  lemma {:induction false} RunOfUvarint(v: nat, rest: Bytes)
    ensures Run(Uvarint(v) + rest) == |Uvarint(v)| - 1
  {
    if v >= 128 {
      RunOfUvarint(v / 128, rest);
      var head := v % 128 + 128;
      assert Uvarint(v) + rest == [head] + (Uvarint(v / 128) + rest);
      assert ([head] + (Uvarint(v / 128) + rest))[1..] == Uvarint(v / 128) + rest;
    }
  }

  lemma {:induction false} NumberOfUvarint(v: nat)
    ensures Number(Uvarint(v)) == v
  {
    if v >= 128 {
      NumberOfUvarint(v / 128);
      assert Uvarint(v)[1..] == Uvarint(v / 128);
    }
  }

  lemma {:induction false} UvarintLength(v: nat, n: nat)
    requires v < Pow128(n) && n > 0
    ensures |Uvarint(v)| <= n
  {
    if v >= 128 {
      UvarintLength(v / 128, n - 1);
    }
  }

  /** Every 64-bit value comes back, whatever follows it. */
  lemma UvarintRoundTrip(v: u64, rest: Bytes)
    ensures Decoded(Uvarint(v) + rest) == Ok((v, |Uvarint(v)|))
  {
    hide Uvarint, Number, Run, Pow128;
    PowersOf128();
    UvarintLength(v, 10);
    RunOfUvarint(v, rest);
    NumberOfUvarint(v);
    var n := |Uvarint(v)|;
    assert (Uvarint(v) + rest)[..n] == Uvarint(v);
  }

  /** The shortest form, with nothing beyond the 64-bit word. */
  predicate Canonical(b: Bytes)
    requires b != []
  {
    (|b| > 1 ==> b[|b| - 1] != 0) && (|b| == 10 ==> b[9] < 2)
  }

  lemma NumberSplits(b: Bytes)
    requires b != []
    ensures Number(b) % 128 == Low7(b[0]) && Number(b) / 128 == Number(b[1..])
  {
    hide Low7;
  }

  lemma {:induction false} UvarintOfNumber(b: Bytes)
    requires b != [] && Run(b) == |b| - 1 && (|b| > 1 ==> b[|b| - 1] != 0)
    ensures Uvarint(Number(b)) == b
  {
    hide Number;
    NumberSplits(b);
    if |b| > 1 {
      UvarintOfNumber(b[1..]);
      PositiveNumber(b[1..]);
      assert [b[0]] + b[1..] == b;
    } else {
      assert b[1..] == [];
      NumberOfNothing();
    }
  }

  lemma {:induction false} PositiveNumber(b: Bytes)
    requires b != [] && b[|b| - 1] < 128 && b[|b| - 1] != 0
    ensures Number(b) > 0
  {
    if |b| > 1 {
      PositiveNumber(b[1..]);
    }
  }

  lemma {:induction false} UvarintEnds(v: nat)
    ensures |Uvarint(v)| > 1 ==> Uvarint(v)[|Uvarint(v)| - 1] != 0
  {
    if v >= 128 {
      UvarintEnds(v / 128);
    }
  }

  /** A decoded value encodes to the bytes it came from exactly when these were canonical. */
  lemma ReencodedIffCanonical(data: Bytes)
    requires Decoded(data).Ok?
    ensures var (v, n) := Decoded(data).value; Uvarint(v) == data[..n] <==> Canonical(data[..n])
  {
    hide Number, Uvarint, Run;
    var (v, n) := Decoded(data).value;
    RunOfPrefix(data, n);
    if Canonical(data[..n]) {
      UvarintOfNumber(data[..n]);
      CanonicalFits(data[..n]);
    }
    if Uvarint(v) == data[..n] {
      UvarintCanonical(v);
    }
  }

  lemma UvarintCanonical(v: u64)
    ensures Canonical(Uvarint(v))
  {
    hide Number, Uvarint;
    UvarintEnds(v);
    NumberOfUvarint(v);
    if |Uvarint(v)| == 10 {
      TenthGroup(Uvarint(v));
      RunOfUvarint(v, []);
      assert Uvarint(v) + [] == Uvarint(v);
    }
  }

  lemma {:induction false} RunOfPrefix(data: Bytes, n: nat)
    requires n == Run(data) + 1 <= |data|
    ensures Run(data[..n]) == n - 1
  {
    if n > 1 {
      RunOfPrefix(data[1..], n - 1);
      assert data[1..][..n - 1] == data[..n][1..];
    }
  }

  lemma TenthGroup(b: Bytes)
    requires |b| == 10
    ensures Number(b) == Number(b[..9]) + Low7(b[9]) * 0x8000_0000_0000_0000
    ensures Number(b[..9]) < 0x8000_0000_0000_0000
  {
    hide Number, Low7, Pow128;
    PowersOf128();
    assert b[..9] + [b[9]] == b;
    NumberAppend(b[..9], b[9]);
    NumberBelow(b[..9]);
  }

  lemma CanonicalFits(b: Bytes)
    requires 0 < |b| <= 10 && Canonical(b)
    ensures Number(b) < U64_MODULUS
  {
    hide Number, Pow128;
    if |b| == 10 {
      TenthGroup(b);
    } else {
      PowersOf128();
      NumberBelow(b);
      PowMonotone(|b|, 9);
    }
  }

  // ---------------------------------------------------------------- paths

  /** One up, wrapping: zero ends a path. */
  function Marked(hop: u64): u64 {
    var h: int := hop;
    (h + 1) % U64_MODULUS
  }

  function PathBytes(path: seq<u64>): Bytes {
    if path == [] then [0] else Uvarint(Marked(path[0])) + PathBytes(path[1..])
  }

  /** The hops read from `data` after `taken` others, and the bytes they took. */
  function DecodedPath(data: Bytes, taken: nat): (r: Result<(seq<u64>, nat), Error>)
    ensures r.Ok? ==> r.value.1 <= |data|
    decreases |data|
  {
    if data == [] then Err(Unterminated)
    else
      match Decoded(data)
      case Err(e) => Err(e)
      case Ok((v, n)) =>
        if v == 0 then Ok(([], n))
        else if taken >= MAX_PATH then Err(PathTooLong)
        else
          var hop: u64 := v - 1;
          After([hop], n, DecodedPath(data[n..], taken + 1))
  }

  function After(path: seq<u64>, n: nat, r: Result<(seq<u64>, nat), Error>): Result<(seq<u64>, nat), Error> {
    match r
    case Err(e) => Err(e)
    case Ok((p, m)) => Ok((path + p, n + m))
  }

  method EncodePath(path: seq<u64>) returns (buf: Bytes)
    ensures buf == PathBytes(path)
  {
    hide Uvarint;
    buf := [];
    for i := 0 to |path|
      invariant buf + PathBytes(path[i..]) == PathBytes(path)
    {
      ghost var before := buf;
      buf := EncodeUvarint(Marked(path[i]), buf);
      assert path[i..][1..] == path[i + 1..];
      assert before + (Uvarint(Marked(path[i])) + PathBytes(path[i + 1..])) == buf + PathBytes(path[i + 1..]);
    }
    assert path[|path|..] == [];
    buf := buf + [0];
  }

  method DecodePath(data: Bytes) returns (r: Result<(seq<u64>, nat), Error>)
    ensures r == DecodedPath(data, 0)
  {
    hide Decoded;
    var path: seq<u64> := [];
    var pos := 0;
    AfterNothing(data);
    while true
      invariant pos <= |data|
      invariant DecodedPath(data, 0) == After(path, pos, DecodedPath(data[pos..], |path|))
      decreases |data| - pos
    {
      if pos >= |data| {
        return Err(Unterminated);
      }
      var d := DecodeUvarint(data[pos..]);
      if d.Err? {
        return Err(d.error);
      }
      var (val, consumed) := d.value;
      DecodedAdvances(data[pos..]);
      if val == 0 {
        assert path + [] == path;
        return Ok((path, pos + consumed));
      }
      if |path| >= MAX_PATH {
        return Err(PathTooLong);
      }
      assert data[pos..][consumed..] == data[pos + consumed..];
      AfterAfter(path, pos, [val - 1], consumed, DecodedPath(data[pos + consumed..], |path| + 1));
      path, pos := path + [val - 1], pos + consumed;
    }
  }

  lemma DecodedAdvances(data: Bytes)
    ensures Decoded(data).Ok? ==> 0 < Decoded(data).value.1 <= |data|
  {
  }

  lemma AfterNothing(data: Bytes)
    ensures DecodedPath(data, 0) == After([], 0, DecodedPath(data[0..], 0))
  {
    assert data[0..] == data;
    var r := DecodedPath(data, 0);
    if r.Ok? {
      assert [] + r.value.0 == r.value.0;
    }
  }

  lemma AfterAfter(a: seq<u64>, n: nat, b: seq<u64>, m: nat, r: Result<(seq<u64>, nat), Error>)
    ensures After(a, n, After(b, m, r)) == After(a + b, n + m, r)
  {
    if r.Ok? {
      assert a + (b + r.value.0) == a + b + r.value.0;
    }
  }

  /** What a path must be to survive: not too long, and without the one hop that wraps to zero. */
  predicate Fits(path: seq<u64>, taken: nat) {
    taken + |path| <= MAX_PATH && forall h | h in path :: h < U64_MAX
  }

  /** A path comes back exactly when it fits; otherwise decoding fails or loses hops. */
  lemma {:induction false} PathRoundTrip(path: seq<u64>, rest: Bytes, taken: nat)
    requires taken <= MAX_PATH
    ensures Fits(path, taken) ==> DecodedPath(PathBytes(path) + rest, taken) == Ok((path, |PathBytes(path)|))
    ensures !Fits(path, taken) ==>
              var r := DecodedPath(PathBytes(path) + rest, taken); r.Ok? ==> |r.value.0| < |path|
    decreases |path|
  {
    hide Decoded, Uvarint, DecodedPath, Fits, Marked;
    if path == [] {
      UvarintOfZero();
      PathStep(0, rest, taken);
      NothingFits(taken);
    } else {
      var v, tail := Marked(path[0]), PathBytes(path[1..]) + rest;
      PathStep(v, tail, taken);
      assert PathBytes(path) + rest == Uvarint(v) + tail;
      FitsTail(path, taken);
      if v != 0 && taken < MAX_PATH {
        PathRoundTrip(path[1..], rest, taken + 1);
        AfterLength([path[0]], |Uvarint(v)|, DecodedPath(tail, taken + 1));
        assert [path[0]] + path[1..] == path;
      }
    }
  }

  lemma AfterLength(a: seq<u64>, n: nat, r: Result<(seq<u64>, nat), Error>)
    ensures After(a, n, r).Ok? <==> r.Ok?
    ensures r.Ok? ==> |After(a, n, r).value.0| == |a| + |r.value.0|
  {
  }

  lemma NothingFits(taken: nat)
    requires taken <= MAX_PATH
    ensures Fits([], taken)
  {
  }

  lemma FitsTail(path: seq<u64>, taken: nat)
    requires path != []
    ensures Fits(path, taken) <==> Marked(path[0]) != 0 && Fits(path[1..], taken + 1)
    ensures Marked(path[0]) != 0 ==> Marked(path[0]) == path[0] + 1
    ensures Fits(path, taken) ==> taken < MAX_PATH
  {
    assert path[0] in path;
    assert forall h | h in path :: h == path[0] || h in path[1..];
    assert forall h | h in path[1..] :: h in path;
  }

  lemma PathStep(v: u64, tail: Bytes, taken: nat)
    ensures DecodedPath(Uvarint(v) + tail, taken) ==
            if v == 0 then Ok(([], |Uvarint(v)|))
            else if taken >= MAX_PATH then Err(PathTooLong)
            else
              var hop: u64 := v - 1;
              After([hop], |Uvarint(v)|, DecodedPath(tail, taken + 1))
  {
    hide Decoded, Uvarint;
    UvarintRoundTrip(v, tail);
    assert (Uvarint(v) + tail)[|Uvarint(v)|..] == tail;
  }

  lemma UvarintOfZero()
    ensures Uvarint(0) == [0]
  {
  }

  lemma {:induction false} DecodedPathFits(data: Bytes, taken: nat)
    requires taken <= MAX_PATH
    ensures var r := DecodedPath(data, taken); r.Ok? ==> Fits(r.value.0, taken)
    decreases |data|
  {
    hide Decoded;
    if data != [] && Decoded(data).Ok? && Decoded(data).value.0 != 0 && taken < MAX_PATH {
      DecodedAdvances(data);
      DecodedPathFits(data[Decoded(data).value.1..], taken + 1);
    }
  }

  // ---------------------------------------------------------------- Traffic

  type Header = b: Bytes | |b| == 128 witness Zeros(128)
  type Payload = b: Bytes | |b| < U64_MODULUS witness []

  datatype Traffic = Traffic(path: seq<u64>, from: Bytes32, encHeader: Header, tag: Bytes16, pktType: u8,
                             dest: Option<Bytes16>, watermark: u64, payload: Payload)

  const FIXED: nat := 177

  function FixedBytes(t: Traffic): (b: Bytes)
    ensures |b| == FIXED
  {
    t.from + t.encHeader + t.tag + [t.pktType]
  }

  function DestBytes(d: Option<Bytes16>): Bytes {
    match d case Some(c) => [1] + c case None => [0]
  }

  function LoadBytes(t: Traffic): Bytes {
    Uvarint(t.watermark) + (Uvarint(|t.payload|) + t.payload)
  }

  function TrafficBytes(t: Traffic): Bytes {
    [TRAFFIC] + (PathBytes(t.path) + (FixedBytes(t) + (DestBytes(t.dest) + LoadBytes(t))))
  }

  function DecodedDest(d: Bytes): (r: Result<(Option<Bytes16>, nat), Error>)
    ensures r.Ok? ==> r.value.1 <= |d|
  {
    if d == [] then Err(Truncated)
    else if d[0] == 0 then Ok((None, 1))
    else if |d| < 17 then Err(Truncated)
    else Ok((Some(d[1..17]), 17))
  }

  /** The hop counter and the payload. */
  function DecodedLoad(d: Bytes): (r: Result<(u64, Payload), Error>) {
    match Decoded(d)
    case Err(e) => Err(e)
    case Ok((watermark, n)) =>
      match Decoded(d[n..])
      case Err(e) => Err(e)
      case Ok((len, m)) =>
        var rest := d[n..][m..];
        if len > |rest| then Err(Truncated) else Ok((watermark, rest[..len]))
  }

  function DecodedBody(path: seq<u64>, d: Bytes): Result<Traffic, Error> {
    if |d| < FIXED then Err(Truncated)
    else
      match DecodedDest(d[FIXED..])
      case Err(e) => Err(e)
      case Ok((dest, n)) =>
        match DecodedLoad(d[FIXED..][n..])
        case Err(e) => Err(e)
        case Ok((watermark, payload)) =>
          Ok(Traffic(path, d[..32], d[32..160], d[160..176], d[176], dest, watermark, payload))
  }

  /** Decode what follows the type byte. */
  function DecodedTraffic(data: Bytes): Result<Traffic, Error> {
    match DecodedPath(data, 0)
    case Err(e) => Err(e)
    case Ok((path, n)) => DecodedBody(path, data[n..])
  }

  method EncodeTraffic(t: Traffic) returns (buf: Bytes)
    ensures buf == TrafficBytes(t)
  {
    hide Uvarint, PathBytes;
    buf := [TRAFFIC];
    var path := EncodePath(t.path);
    buf := buf + path;
    buf := buf + t.from + t.encHeader + t.tag + [t.pktType];
    assert buf == [TRAFFIC] + (PathBytes(t.path) + FixedBytes(t));
    match t.dest {
      case Some(c) => buf := buf + [1] + c;
      case None => buf := buf + [0];
    }
    assert buf == [TRAFFIC] + (PathBytes(t.path) + (FixedBytes(t) + DestBytes(t.dest)));
    ghost var head := buf;
    buf := EncodeUvarint(t.watermark, buf);
    buf := EncodeUvarint(|t.payload|, buf);
    buf := buf + t.payload;
    assert buf == head + LoadBytes(t);
  }

  lemma LoadRoundTrip(t: Traffic, rest: Bytes)
    ensures DecodedLoad(LoadBytes(t) + rest) == Ok((t.watermark, t.payload))
  {
    hide Uvarint, Decoded;
    var w, l := Uvarint(t.watermark), Uvarint(|t.payload|);
    var tail := l + (t.payload + rest);
    assert LoadBytes(t) + rest == w + tail;
    UvarintRoundTrip(t.watermark, tail);
    assert (w + tail)[|w|..] == tail;
    UvarintRoundTrip(|t.payload|, t.payload + rest);
    assert tail[|l|..] == t.payload + rest;
    assert (t.payload + rest)[..|t.payload|] == t.payload;
  }

  lemma DestRoundTrip(d: Option<Bytes16>, rest: Bytes)
    ensures DecodedDest(DestBytes(d) + rest) == Ok((d, |DestBytes(d)|))
    ensures d.None? ==> DestBytes(d) == [0]
    ensures d.Some? ==> DestBytes(d)[0] == 1 && DestBytes(d)[1..] == d.value
  {
    match d {
      case Some(c) => assert ([1] + c + rest)[1..17] == c;
      case None =>
    }
  }

  lemma FixedRoundTrip(t: Traffic, rest: Bytes)
    ensures var d := FixedBytes(t) + rest;
            && d[..32] == t.from && d[32..160] == t.encHeader && d[160..176] == t.tag && d[176] == t.pktType
            && d[FIXED..] == rest
  {
  }

  lemma BodyRoundTrip(t: Traffic, path: seq<u64>, rest: Bytes)
    ensures DecodedBody(path, FixedBytes(t) + (DestBytes(t.dest) + LoadBytes(t)) + rest) == Ok(t.(path := path))
  {
    hide FixedBytes, DestBytes, LoadBytes, DecodedDest, DecodedLoad;
    var load := LoadBytes(t) + rest;
    var tail := DestBytes(t.dest) + load;
    assert FixedBytes(t) + (DestBytes(t.dest) + LoadBytes(t)) + rest == FixedBytes(t) + tail;
    FixedRoundTrip(t, tail);
    DestRoundTrip(t.dest, load);
    assert tail[|DestBytes(t.dest)|..] == load;
    LoadRoundTrip(t, rest);
  }

  /** A packet comes back, whatever follows it, exactly when its path fits. */
  lemma TrafficRoundTrip(t: Traffic, rest: Bytes)
    ensures DecodedTraffic(TrafficBytes(t)[1..] + rest) == Ok(t) <==> Fits(t.path, 0)
  {
    hide PathBytes, DecodedPath, DecodedBody, Fits, FixedBytes, DestBytes, LoadBytes;
    var body := FixedBytes(t) + (DestBytes(t.dest) + LoadBytes(t));
    var data := PathBytes(t.path) + (body + rest);
    assert TrafficBytes(t)[1..] + rest == data;
    PathRoundTrip(t.path, body + rest, 0);
    if Fits(t.path, 0) {
      assert data[|PathBytes(t.path)|..] == body + rest;
      BodyRoundTrip(t, t.path, rest);
    } else if DecodedPath(data, 0).Ok? {
      var (path, n) := DecodedPath(data, 0).value;
      BodyKeepsPath(path, data[n..]);
    }
  }

  lemma BodyKeepsPath(path: seq<u64>, d: Bytes)
    ensures DecodedBody(path, d).Ok? ==> DecodedBody(path, d).value.path == path
  {
    hide DecodedDest, DecodedLoad;
  }

  /** A packet that was decoded can be forwarded: with any new sender and hop counter it encodes to
      bytes that decode to just that packet. */
  lemma ForwardedDecodes(data: Bytes, from: Bytes32, watermark: u64, rest: Bytes)
    requires DecodedTraffic(data).Ok?
    ensures var t := DecodedTraffic(data).value.(from := from, watermark := watermark);
            DecodedTraffic(TrafficBytes(t)[1..] + rest) == Ok(t)
  {
    hide DecodedBody, DecodedPath, TrafficBytes, Fits;
    var (path, n) := DecodedPath(data, 0).value;
    DecodedPathFits(data, 0);
    BodyKeepsPath(path, data[n..]);
    TrafficRoundTrip(DecodedTraffic(data).value.(from := from, watermark := watermark), rest);
  }

  // ---------------------------------------------------------------- frames

  /** The first frame of a byte stream and the bytes it took. */
  function FrameAt(data: Bytes): (r: Result<(Bytes, nat), Error>)
    ensures r.Ok? ==> 0 < r.value.1 <= |data|
  {
    var e := Run(data);
    if e >= 10 then Err(PrefixTooLong)
    else if e == |data| then Err(Truncated)
    else
      var length := Number(data[..e + 1]) % U64_MODULUS;
      if length > MAX_FRAME then Err(FrameTooLarge)
      else if e + 1 + length > |data| then Err(Truncated)
      else Ok((data[e + 1..e + 1 + length], e + 1 + length))
  }

  method ReadFrame(data: Bytes) returns (r: Result<(Bytes, nat), Error>)
    ensures r == FrameAt(data)
  {
    hide Number;
    var prefix: Bytes := [];
    while true
      invariant |prefix| <= 9 && |prefix| <= Run(data) && prefix == data[..|prefix|]
      decreases 10 - |prefix|
    {
      var i := |prefix|;
      if i >= |data| {
        return Err(Truncated);
      }
      RunPast(data, i);
      prefix := prefix + [data[i]];
      assert prefix == data[..i + 1];
      if data[i] < 128 {
        break;
      }
      if |prefix| > 9 {
        return Err(PrefixTooLong);
      }
    }
    PrefixRun(data, |prefix|);
    var d := DecodeUvarint(prefix);
    var (length, _) := d.value;
    var n := |prefix|;
    if length == 0 {
      assert data[n..n] == [];
      return Ok(([], n));
    }
    if length > MAX_FRAME {
      return Err(FrameTooLarge);
    }
    if n + length > |data| {
      return Err(Truncated);
    }
    return Ok((data[n..n + length], n + length));
  }

  lemma PrefixRun(data: Bytes, n: nat)
    requires n == Run(data) + 1 <= |data| && n <= 10
    ensures Decoded(data[..n]) == Ok((Number(data[..n]) % U64_MODULUS, n))
  {
    hide Number, Run;
    RunOfPrefix(data, n);
    assert data[..n][..n] == data[..n];
  }

  function FrameBytes(f: Bytes): Bytes {
    Uvarint(|f|) + f
  }

  function Wire(frames: seq<Bytes>): Bytes {
    if frames == [] then [] else Wire(frames[..|frames| - 1]) + FrameBytes(frames[|frames| - 1])
  }

  /** One write for many frames puts the same bytes on the wire as one write for each. */
  method WriteFramesBatched(wire: Bytes, frames: seq<Payload>) returns (out: Bytes)
    ensures out == wire + Wire(frames)
  {
    hide Uvarint;
    if |frames| == 0 {
      assert Wire(frames) == [];
      return wire;
    }
    var buf: Bytes := [];
    if |frames| == 1 {
      buf := EncodeUvarint(|frames[0]|, buf);
      assert frames == [frames[0]] && Wire([frames[0]][..0]) == [];
      assert buf + frames[0] == Wire(frames);
      return wire + (buf + frames[0]);
    }
    for i := 0 to |frames|
      invariant buf == Wire(frames[..i])
    {
      ghost var before := buf;
      buf := EncodeUvarint(|frames[i]|, buf);
      buf := buf + frames[i];
      assert buf == before + FrameBytes(frames[i]);
      assert frames[..i + 1][..i] == frames[..i];
    }
    assert frames[..|frames|] == frames;
    return wire + buf;
  }

  /** The next `n` frames and the bytes they took. */
  function Frames(data: Bytes, n: nat): (r: Result<(seq<Bytes>, nat), Error>)
    ensures r.Ok? ==> r.value.1 <= |data| && |r.value.0| == n
  {
    if n == 0 then Ok(([], 0))
    else
      match Frames(data, n - 1)
      case Err(e) => Err(e)
      case Ok((fs, m)) =>
        match FrameAt(data[m..])
        case Err(e) => Err(e)
        case Ok((f, k)) => Ok((fs + [f], m + k))
  }

  lemma FrameRoundTrip(f: Payload, rest: Bytes)
    ensures |f| <= MAX_FRAME ==> FrameAt(FrameBytes(f) + rest) == Ok((f, |FrameBytes(f)|))
    ensures |f| > MAX_FRAME ==> FrameAt(FrameBytes(f) + rest) == Err(FrameTooLarge)
  {
    hide Uvarint, Number, Run, Pow128;
    var u := Uvarint(|f|);
    var data := FrameBytes(f) + rest;
    assert data == u + (f + rest);
    PowersOf128();
    UvarintLength(|f|, 10);
    RunOfUvarint(|f|, f + rest);
    NumberOfUvarint(|f|);
    assert data[..|u|] == u;
    assert data[|u|..|u| + |f|] == f;
  }

  predicate Small(frames: seq<Payload>) {
    forall f | f in frames :: |f| <= MAX_FRAME
  }

  lemma SmallLast(frames: seq<Payload>)
    requires frames != []
    ensures var k := |frames| - 1; Small(frames) <==> Small(frames[..k]) && |frames[k]| <= MAX_FRAME
  {
    var k := |frames| - 1;
    assert frames[k] in frames;
    assert forall g | g in frames :: g in frames[..k] || g == frames[k];
    assert forall g | g in frames[..k] :: g in frames;
  }

  /** Frames written in one batch or several are read back one by one, exactly when none of them is
      over the limit; otherwise reading stops with that error. */
  lemma {:induction false} FramesRoundTrip(frames: seq<Payload>, rest: Bytes)
    ensures Frames(Wire(frames) + rest, |frames|) ==
            if Small(frames) then Ok((frames, |Wire(frames)|)) else Err(FrameTooLarge)
    decreases |frames|
  {
    hide FrameBytes, FrameAt, Small;
    if frames == [] {
      NoFramesSmall();
    } else {
      var k := |frames| - 1;
      var init, f := frames[..k], frames[k];
      var tail := FrameBytes(f) + rest;
      assert Wire(frames) + rest == Wire(init) + tail;
      FramesRoundTrip(init, tail);
      FrameRoundTrip(f, rest);
      assert (Wire(init) + tail)[|Wire(init)|..] == tail;
      assert init + [f] == frames;
      SmallLast(frames);
    }
  }

  lemma NoFramesSmall()
    ensures Small([])
  {
  }
}
