/** The descriptor-recovery store: the record layout, its parser, and the height-ordered keys. */
module Recovery {
  import opened Chain
  import opened Seqs

  type Byte = b: int | 0 <= b < 256
  type Bytes = seq<Byte>

  // ---------------------------------------------------------------- fixed-width integers

  const U8_LEN: nat := 1
  const U32_LEN: nat := 4
  const U64_LEN: nat := 8

  function Pow256(w: nat): (p: nat)
    ensures p >= 1
  {
    if w == 0 then 1 else 256 * Pow256(w - 1)
  }

  /** The low `w` bytes of `n`, least significant first. */
  function Le(n: nat, w: nat): (s: Bytes)
    ensures |s| == w
    decreases w, n
  {
    if w == 0 then [] else [n % 256] + Le(n / 256, w - 1)
  }

  /** The number whose `w` bytes, least significant first, stand in `s` at `pos`. */
  function FromLe(s: Bytes, pos: nat, w: nat): nat
    requires pos + w <= |s|
    decreases w, |s|
  {
    if w == 0 then 0 else s[pos] + 256 * FromLe(s, pos + 1, w - 1)
  }

  lemma {:induction false} Widths()
    ensures Pow256(U8_LEN) == U8_MAX + 1 && Pow256(U32_LEN) == U32_MAX + 1 && Pow256(U64_LEN) == U64_MAX + 1
  {
    assert Pow256(2) == 0x1_0000;
    assert Pow256(4) == 0x1_0000_0000;
    assert Pow256(6) == 0x1_0000_0000_0000;
  }

  /** The low `w` bytes of `n`, most significant first. */
  function Be(n: nat, w: nat): (s: Bytes)
    ensures |s| == w
    decreases w, n
  {
    if w == 0 then [] else Be(n / 256, w - 1) + [n % 256]
  }

  function FromBe(s: Bytes): nat {
    if s == [] then 0 else 256 * FromBe(s[..|s| - 1]) + s[|s| - 1]
  }

  /** The `n` bytes of `s` from `pos` on. */
  function Slice(s: Bytes, pos: nat, n: nat): (r: Bytes)
    requires pos + n <= |s|
    ensures |r| == n
    decreases n, |s|
  {
    if n == 0 then [] else [s[pos]] + Slice(s, pos + 1, n - 1)
  }

  lemma {:induction false} SliceIsSubsequence(s: Bytes, pos: nat, n: nat)
    requires pos + n <= |s|
    ensures Slice(s, pos, n) == s[pos..pos + n]
    decreases n
  {
    if n > 0 {
      SliceIsSubsequence(s, pos + 1, n - 1);
      assert s[pos..pos + n] == [s[pos]] + s[pos + 1..pos + n];
    }
  }

  lemma {:induction false} SliceSplit(s: Bytes, pos: nat, m: nat, n: nat)
    requires pos + m + n <= |s|
    ensures Slice(s, pos, m + n) == Slice(s, pos, m) + Slice(s, pos + m, n)
    decreases m
  {
    if m > 0 {
      SliceSplit(s, pos + 1, m - 1, n);
      AppendAssoc([s[pos]], Slice(s, pos + 1, m - 1), Slice(s, pos + m, n));
    }
  }

  /** `x` stands in `s` at `pos`. */
  ghost predicate At(s: Bytes, pos: nat, x: Bytes) {
    pos + |x| <= |s| && Slice(s, pos, |x|) == x
  }

  lemma {:induction false} AtSplit(s: Bytes, pos: nat, x: Bytes, y: Bytes)
    requires At(s, pos, x + y)
    ensures At(s, pos, x) && At(s, pos + |x|, y)
  {
    SliceSplit(s, pos, |x|, |y|);
    AppendCancel(x, y, Slice(s, pos, |x|), Slice(s, pos + |x|, |y|));
  }

  lemma {:induction false} LeRoundTrip(s: Bytes, pos: nat, n: nat, w: nat)
    requires n < Pow256(w) && At(s, pos, Le(n, w))
    ensures FromLe(s, pos, w) == n
    decreases w
  {
    if w > 0 {
      AppendCancel([n % 256], Le(n / 256, w - 1), [s[pos]], Slice(s, pos + 1, w - 1));
      LeRoundTrip(s, pos + 1, n / 256, w - 1);
    }
  }

  /** `n` fits the length field of `w` bytes. */
  ghost predicate Fits(n: nat, w: nat) {
    (w == U8_LEN && n <= U8_MAX) || (w == U32_LEN && n <= U32_MAX) || (w == U64_LEN && n <= U64_MAX)
  }

  lemma {:induction false} LengthRoundTrip(s: Bytes, pos: nat, n: nat, w: nat)
    requires Fits(n, w) && At(s, pos, Le(n, w))
    ensures FromLe(s, pos, w) == n
  {
    Widths();
    LeRoundTrip(s, pos, n, w);
  }

  lemma {:induction false} BeRoundTrip(n: nat, w: nat)
    requires n < Pow256(w)
    ensures FromBe(Be(n, w)) == n
  {
    if w > 0 {
      BeRoundTrip(n / 256, w - 1);
    }
  }

  lemma {:induction false} BeSnoc(high: nat, low: Byte, w: nat)
    ensures Be(256 * high + low, w + 1) == Be(high, w) + [low]
  {
    assert (256 * high + low) / 256 == high && (256 * high + low) % 256 == low;
  }

  lemma {:induction false} FromBeRoundTrip(s: Bytes)
    ensures FromBe(s) < Pow256(|s|) && Be(FromBe(s), |s|) == s
    decreases |s|
  {
    if s != [] {
      var high, low := s[..|s| - 1], s[|s| - 1];
      FromBeRoundTrip(high);
      BeSnoc(FromBe(high), low, |high|);
      assert high + [low] == s;
    }
  }

  /** Dividing twice. */
  lemma {:induction false} DivTwice(n: nat, b: nat)
    requires b > 0
    ensures n / 256 / b == n / (256 * b)
  {
    var q, r := n / 256, n % 256;
    var p, s := q / b, q % b;
    assert n == 256 * (b * p + s) + r;
    assert n == (256 * b) * p + (256 * s + r) by {
      assert 256 * (b * p) == (256 * b) * p;
    }
    Quotient(n, 256 * b, p, 256 * s + r);
  }

  lemma {:induction false} Quotient(n: nat, d: nat, q: nat, r: nat)
    requires n == d * q + r && r < d
    ensures n / d == q
  {
    MultiplesApart(d, q, n / d);
    MultiplesApart(d, n / d, q);
  }

  lemma {:induction false} MultiplesApart(d: nat, a: nat, b: nat)
    ensures a < b ==> d * a + d <= d * b
    decreases b
  {
    if a < b {
      MultiplesApart(d, a, b - 1);
      assert d * b == d * (b - 1) + d;
    }
  }

  /** Byte `i` of a little-endian number is its digit of weight 256^i. */
  lemma {:induction false} LeDigit(n: nat, w: nat, i: nat)
    requires i < w
    ensures Le(n, w)[i] == (n / Pow256(i)) % 256
    decreases w
  {
    if i > 0 {
      LeDigit(n / 256, w - 1, i - 1);
      DivTwice(n, Pow256(i - 1));
    }
  }

  /** Byte `i` of a big-endian number of `w` bytes is its digit of weight 256^(w - 1 - i). */
  lemma {:induction false} BeDigit(n: nat, w: nat, i: nat)
    requires i < w
    ensures Be(n, w)[i] == (n / Pow256(w - 1 - i)) % 256
    decreases w
  {
    if i < w - 1 {
      BeDigit(n / 256, w - 1, i);
      DivTwice(n, Pow256(w - 2 - i));
    }
  }

  lemma {:induction false} LeCons(low: Byte, high: nat, w: nat)
    ensures Le(low + 256 * high, w + 1) == [low] + Le(high, w)
  {
    assert (low + 256 * high) / 256 == high && (low + 256 * high) % 256 == low;
  }

  /** The number read at a position has the bytes that stand there. */
  lemma {:induction false} FromLeDigits(s: Bytes, pos: nat, w: nat)
    requires pos + w <= |s|
    ensures FromLe(s, pos, w) < Pow256(w) && Le(FromLe(s, pos, w), w) == Slice(s, pos, w)
    decreases w
  {
    if w > 0 {
      FromLeDigits(s, pos + 1, w - 1);
      LeCons(s[pos], FromLe(s, pos + 1, w - 1), w - 1);
    }
  }

  // ---------------------------------------------------------------- the record

  datatype KeyPair = KeyPair(pubk: Bytes, privk: Bytes)

  /** What is stored: the descriptor's text, the key map's entries in iteration order, and the
      networks' 32-byte chain hashes. */
  datatype Record = Record(desc: Bytes, keys: seq<KeyPair>, networks: seq<Bytes>)

  /** Which texts and hashes their parsers accept. */
  datatype Texts = Texts(desc: Bytes -> bool, pubk: Bytes -> bool, privk: Bytes -> bool, network: Bytes -> bool)

  function FrameKeys(keys: seq<KeyPair>): Bytes {
    if keys == [] then []
    else Le(|keys[0].pubk|, U32_LEN) + keys[0].pubk + Le(|keys[0].privk|, U32_LEN) + keys[0].privk
         + FrameKeys(keys[1..])
  }

  function Concat(parts: seq<Bytes>): Bytes {
    if parts == [] then [] else parts[0] + Concat(parts[1..])
  }

  function Frame(r: Record): Bytes {
    Le(|r.desc|, U64_LEN) + r.desc + Le(|FrameKeys(r.keys)|, U64_LEN) + FrameKeys(r.keys) + Le(|r.networks|, U8_LEN)
    + Concat(r.networks)
  }

  method KeyMapLen(keys: seq<KeyPair>) returns (n: nat)
    ensures n == |FrameKeys(keys)|
  {
    n := 0;
    var i := 0;
    assert keys[0..] == keys;
    while i < |keys|
      invariant 0 <= i <= |keys|
      invariant n + |FrameKeys(keys[i..])| == |FrameKeys(keys)|
    {
      SuffixCons(keys, i);
      n := n + U32_LEN + |keys[i].pubk| + U32_LEN + |keys[i].privk|;
      i := i + 1;
    }
  }

  method AppendKeyMap(start: Bytes, keys: seq<KeyPair>) returns (bytes: Bytes)
    ensures bytes == start + FrameKeys(keys)
  {
    bytes := start;
    var i := 0;
    assert keys[0..] == keys;
    while i < |keys|
      invariant 0 <= i <= |keys|
      invariant start + FrameKeys(keys) == bytes + FrameKeys(keys[i..])
    {
      SuffixCons(keys, i);
      var entry := Le(|keys[i].pubk|, U32_LEN) + keys[i].pubk + Le(|keys[i].privk|, U32_LEN) + keys[i].privk;
      AppendAssoc(bytes, entry, FrameKeys(keys[i + 1..]));
      bytes := bytes + entry;
      i := i + 1;
    }
    AppendEmpty(bytes);
  }

  method AppendNetworks(start: Bytes, networks: seq<Bytes>) returns (bytes: Bytes)
    ensures bytes == start + Concat(networks)
  {
    bytes := start;
    var i := 0;
    assert networks[0..] == networks;
    while i < |networks|
      invariant 0 <= i <= |networks|
      invariant start + Concat(networks) == bytes + Concat(networks[i..])
    {
      SuffixCons(networks, i);
      AppendAssoc(bytes, networks[i], Concat(networks[i + 1..]));
      bytes := bytes + networks[i];
      i := i + 1;
    }
    AppendEmpty(bytes);
  }

  /** The layout, as the store writes it. */
  method FrameRecord(r: Record) returns (bytes: Bytes)
    ensures bytes == Frame(r)
  {
    bytes := Le(|r.desc|, U64_LEN) + r.desc;
    var keysLen := KeyMapLen(r.keys);
    bytes := bytes + Le(keysLen, U64_LEN);
    bytes := AppendKeyMap(bytes, r.keys);
    bytes := bytes + Le(|r.networks|, U8_LEN);
    bytes := AppendNetworks(bytes, r.networks);
  }

  // ---------------------------------------------------------------- the parser

  /** `Underflow` is a key map length that ends inside an entry. */
  datatype RecoveryError =
    | UnexpectedEof
    | InvalidDescriptor
    | InvalidPublicKey
    | InvalidPrivateKey
    | InvalidNetwork
    | Underflow
    | EntryTooShort(len: nat)
    | Decryption

  datatype Parsed = Parsed(desc: Bytes, keys: map<Bytes, Bytes>, networks: set<Bytes>)

  /** Reads `n` bytes at the cursor and moves it past them. */
  function Take(s: Bytes, pos: nat, n: nat): (r: Result<(Bytes, nat), RecoveryError>)
    requires pos <= |s|
    ensures r.Ok? ==> r.value.1 <= |s|
  {
    if |s| - pos < n then Err(UnexpectedEof) else Ok((Slice(s, pos, n), pos + n))
  }

  /** Reads a number of `w` bytes at the cursor and moves it past them. */
  function TakeNum(s: Bytes, pos: nat, w: nat): (r: Result<(nat, nat), RecoveryError>)
    requires pos <= |s|
    ensures r.Ok? ==> r.value.1 <= |s|
  {
    if |s| - pos < w then Err(UnexpectedEof) else Ok((FromLe(s, pos, w), pos + w))
  }

  /** Reads a text preceded by its length in `w` bytes. */
  function TakeText(s: Bytes, pos: nat, w: nat): (r: Result<(Bytes, nat), RecoveryError>)
    requires pos <= |s|
    ensures r.Ok? ==> r.value.1 <= |s|
  {
    match TakeNum(s, pos, w)
    case Err(e) => Err(e)
    case Ok((len, next)) => Take(s, next, len)
  }

  /** A key, the cursor behind it and the bytes left to read. */
  datatype KeyRead = Key(text: Bytes, pos: nat, left: nat) | BadKey(error: RecoveryError)

  /** One key of an entry: its length, counted off `toRead`, then its text, counted off too. */
  function TakeKey(s: Bytes, pos: nat, toRead: nat): (r: KeyRead)
    requires pos <= |s|
    ensures r.Key? ==> r.pos <= |s| && r.left < toRead
  {
    var text := pos + U32_LEN;
    if |s| < text then BadKey(UnexpectedEof)
    else if toRead < U32_LEN then BadKey(Underflow)
    else
      var len := FromLe(s, pos, U32_LEN);
      if |s| < text + len then BadKey(UnexpectedEof)
      else if toRead < U32_LEN + len then BadKey(Underflow)
      else Key(Slice(s, text, len), text + len, toRead - U32_LEN - len)
  }

  /** One turn of the key map loop: an entry, the cursor behind it and the bytes left to read. */
  datatype Turn = Turn(k: KeyPair, pos: nat, left: nat) | Fault(e: RecoveryError)

  function ReadEntry(t: Texts, s: Bytes, pos: nat, toRead: nat): (r: Turn)
    requires pos <= |s|
    ensures r.Turn? ==> r.pos <= |s| && r.left < toRead
  {
    match TakeKey(s, pos, toRead)
    case BadKey(e) => Fault(e)
    case Key(pubk, pos1, left1) =>
      if !t.pubk(pubk) then Fault(InvalidPublicKey)
      else
        match TakeKey(s, pos1, left1)
        case BadKey(e) => Fault(e)
        case Key(privk, pos2, left2) =>
          if !t.privk(privk) then Fault(InvalidPrivateKey) else Turn(KeyPair(pubk, privk), pos2, left2)
  }

  /** The entries of a key map and the cursor behind them. */
  datatype Entries = Entries(keys: seq<KeyPair>, end: nat) | BadEntry(error: RecoveryError)

  function ParseKeys(t: Texts, s: Bytes, pos: nat, toRead: nat): (r: Entries)
    requires pos <= |s|
    ensures r.Entries? ==> r.end <= |s|
    decreases toRead
  {
    if toRead == 0 then Entries([], pos)
    else
      match ReadEntry(t, s, pos, toRead)
      case Fault(e) => BadEntry(e)
      case Turn(k, next, left) =>
        match ParseKeys(t, s, next, left)
        case BadEntry(e) => BadEntry(e)
        case Entries(keys, end) => Entries([k] + keys, end)
  }

  const CHAIN_HASH_LEN: nat := 32

  function ParseNetworks(t: Texts, s: Bytes, pos: nat, n: nat): Result<seq<Bytes>, RecoveryError>
    requires pos <= |s|
    decreases n
  {
    if n == 0 then Ok([])
    else
      match Take(s, pos, CHAIN_HASH_LEN)
      case Err(e) => Err(e)
      case Ok((hash, next)) =>
        if !t.network(hash) then Err(InvalidNetwork)
        else
          match ParseNetworks(t, s, next, n - 1)
          case Err(e) => Err(e)
          case Ok(hashes) => Ok([hash] + hashes)
  }

  /** Inserting the entries one after the other. */
  function MapOf(keys: seq<KeyPair>): map<Bytes, Bytes> {
    if keys == [] then map[] else MapOf(keys[..|keys| - 1])[keys[|keys| - 1].pubk := keys[|keys| - 1].privk]
  }

  function SetOf(hashes: seq<Bytes>): set<Bytes> {
    set h | h in hashes
  }

  /** The descriptor, the length of the key map, and the cursor at its first entry. */
  function ParseHead(t: Texts, s: Bytes): (r: Result<(Bytes, nat, nat), RecoveryError>)
    ensures r.Ok? ==> r.value.2 <= |s|
  {
    match TakeText(s, 0, U64_LEN)
    case Err(e) => Err(e)
    case Ok((desc, pos)) =>
      if !t.desc(desc) then Err(InvalidDescriptor)
      else
        match TakeNum(s, pos, U64_LEN)
        case Err(e) => Err(e)
        case Ok((len, next)) => Ok((desc, len, next))
  }

  function Parse(t: Texts, s: Bytes): Result<Parsed, RecoveryError> {
    match ParseHead(t, s)
    case Err(e) => Err(e)
    case Ok((desc, len, pos)) =>
      match ParseKeys(t, s, pos, len)
      case BadEntry(e) => Err(e)
      case Entries(keys, end) =>
        match ParseNetworkSet(t, s, end)
        case Err(e) => Err(e)
        case Ok(networks) => Ok(Parsed(desc, MapOf(keys), networks))
  }

  function ParseNetworkSet(t: Texts, s: Bytes, pos: nat): Result<set<Bytes>, RecoveryError>
    requires pos <= |s|
  {
    match TakeNum(s, pos, U8_LEN)
    case Err(e) => Err(e)
    case Ok((count, next)) =>
      match ParseNetworks(t, s, next, count)
      case Err(e) => Err(e)
      case Ok(hashes) => Ok(SetOf(hashes))
  }

  lemma {:induction false} MapOfSnoc(keys: seq<KeyPair>, k: KeyPair)
    ensures MapOf(keys + [k]) == MapOf(keys)[k.pubk := k.privk]
  {
    assert (keys + [k])[..|keys|] == keys;
  }

  /** The whole is what was read so far followed by what is left, or fails as what is left. */
  ghost predicate EntriesOnto(seen: seq<KeyPair>, left: Entries, whole: Entries) {
    match left
    case Entries(keys, end) => whole == Entries(seen + keys, end)
    case BadEntry(e) => whole == BadEntry(e)
  }

  /** The key map loop, with its cursor and its count of bytes left. */
  method ReadKeys(
    t: Texts, s: Bytes, start: nat, keysLen: nat) returns (r: Result<(map<Bytes, Bytes>, nat), RecoveryError>)
    requires start <= |s|
    ensures
      match ParseKeys(t, s, start, keysLen)
      case BadEntry(e) => r == Err(e)
      case Entries(keys, end) => r == Ok((MapOf(keys), end))
  {
    var pos: nat, toRead: nat := start, keysLen;
    var keymap: map<Bytes, Bytes> := map[];
    ghost var seen: seq<KeyPair> := [];
    ghost var whole := ParseKeys(t, s, start, keysLen);
    if whole.Entries? {
      AppendEmpty(whole.keys);
    }
    while toRead > 0
      invariant pos <= |s| && keymap == MapOf(seen)
      invariant EntriesOnto(seen, ParseKeys(t, s, pos, toRead), whole)
      decreases toRead
    {
      var pubk := TakeKey(s, pos, toRead);
      if pubk.BadKey? {
        return Err(pubk.error);
      }
      if !t.pubk(pubk.text) {
        return Err(InvalidPublicKey);
      }
      var privk := TakeKey(s, pubk.pos, pubk.left);
      if privk.BadKey? {
        return Err(privk.error);
      }
      if !t.privk(privk.text) {
        return Err(InvalidPrivateKey);
      }
      keymap := keymap[pubk.text := privk.text];
      ghost var pair := KeyPair(pubk.text, privk.text);
      pos, toRead := privk.pos, privk.left;
      ghost var rest := ParseKeys(t, s, pos, toRead);
      if rest.Entries? {
        AppendAssoc(seen, [pair], rest.keys);
      }
      MapOfSnoc(seen, pair);
      seen := seen + [pair];
    }
    AppendEmpty(seen);
    r := Ok((keymap, pos));
  }

  method ReadNetworks(t: Texts, s: Bytes, start: nat, n: nat) returns (r: Result<set<Bytes>, RecoveryError>)
    requires start <= |s|
    ensures
      match ParseNetworks(t, s, start, n)
      case Err(e) => r == Err(e)
      case Ok(hashes) => r == Ok(SetOf(hashes))
  {
    var pos: nat, networks: set<Bytes> := start, {};
    ghost var seen: seq<Bytes> := [];
    ghost var whole := ParseNetworks(t, s, start, n);
    if whole.Ok? {
      AppendEmpty(whole.value);
    }
    var i := 0;
    while i < n
      invariant 0 <= i <= n && pos <= |s| && networks == SetOf(seen)
      invariant Onto(seen, ParseNetworks(t, s, pos, n - i), whole)
    {
      var hash := Take(s, pos, CHAIN_HASH_LEN);
      if hash.Err? {
        return Err(hash.error);
      }
      if !t.network(hash.value.0) {
        return Err(InvalidNetwork);
      }
      networks := networks + {hash.value.0};
      pos := hash.value.1;
      ghost var rest := ParseNetworks(t, s, pos, n - i - 1);
      if rest.Ok? {
        AppendAssoc(seen, [hash.value.0], rest.value);
      }
      seen := seen + [hash.value.0];
      i := i + 1;
    }
    AppendEmpty(seen);
    r := Ok(networks);
  }

  method ParseRecord(t: Texts, s: Bytes) returns (r: Result<Parsed, RecoveryError>)
    ensures r == Parse(t, s)
  {
    var desc := TakeText(s, 0, U64_LEN);
    if desc.Err? {
      return Err(desc.error);
    }
    if !t.desc(desc.value.0) {
      return Err(InvalidDescriptor);
    }
    var len := TakeNum(s, desc.value.1, U64_LEN);
    if len.Err? {
      return Err(len.error);
    }
    var keys := ReadKeys(t, s, len.value.1, len.value.0);
    if keys.Err? {
      return Err(keys.error);
    }
    var count := TakeNum(s, keys.value.1, U8_LEN);
    if count.Err? {
      return Err(count.error);
    }
    var networks := ReadNetworks(t, s, count.value.1, count.value.0);
    if networks.Err? {
      return Err(networks.error);
    }
    r := Ok(Parsed(desc.value.0, keys.value.0, networks.value));
  }

  // ---------------------------------------------------------------- the round trip

  /** Every length fits its field, every text is accepted by its parser, hashes have 32 bytes. */
  ghost predicate Storable(t: Texts, r: Record) {
    && |r.desc| <= U64_MAX && |FrameKeys(r.keys)| <= U64_MAX && |r.networks| <= U8_MAX
    && t.desc(r.desc)
    && (forall i :: 0 <= i < |r.keys| ==> StorableKey(t, r.keys[i]))
    && forall i :: 0 <= i < |r.networks| ==> |r.networks[i]| == CHAIN_HASH_LEN && t.network(r.networks[i])
  }

  ghost predicate StorableKey(t: Texts, k: KeyPair) {
    |k.pubk| <= U32_MAX && |k.privk| <= U32_MAX && t.pubk(k.pubk) && t.privk(k.privk)
  }

  /** A text stands in `s` at `pos`, behind its length in `w` bytes. */
  ghost predicate TextAt(s: Bytes, pos: nat, w: nat, text: Bytes) {
    && pos + w + |text| <= |s|
    && FromLe(s, pos, w) == |text|
    && Slice(s, pos + w, |text|) == text
  }

  lemma {:induction false} FramedTextAt(s: Bytes, pos: nat, w: nat, text: Bytes, rest: Bytes)
    requires Fits(|text|, w) && At(s, pos, Le(|text|, w) + text + rest)
    ensures TextAt(s, pos, w, text) && At(s, pos + w + |text|, rest)
  {
    AtSplit(s, pos, Le(|text|, w) + text, rest);
    AtSplit(s, pos, Le(|text|, w), text);
    LengthRoundTrip(s, pos, |text|, w);
  }

  /** The key that stands at the cursor is read, and counted off exactly. */
  lemma {:induction false} TakesKey(s: Bytes, pos: nat, text: Bytes, left: nat)
    requires TextAt(s, pos, U32_LEN, text)
    ensures TakeKey(s, pos, U32_LEN + |text| + left) == Key(text, pos + U32_LEN + |text|, left)
  {
  }

  /** One framed entry stands at `pos`. */
  ghost predicate EntryAt(s: Bytes, pos: nat, k: KeyPair) {
    TextAt(s, pos, U32_LEN, k.pubk) && TextAt(s, pos + U32_LEN + |k.pubk|, U32_LEN, k.privk)
  }

  ghost function EntryLen(k: KeyPair): nat {
    U32_LEN + |k.pubk| + U32_LEN + |k.privk|
  }

  /** The framed entries from the `i`-th on, all storable, stand one after the other from `pos` on. */
  ghost predicate EntriesAt(t: Texts, s: Bytes, pos: nat, keys: seq<KeyPair>, i: nat)
    requires i <= |keys|
    decreases |keys| - i
  {
    i < |keys| ==>
      StorableKey(t, keys[i]) && EntryAt(s, pos, keys[i]) && EntriesAt(t, s, pos + EntryLen(keys[i]), keys, i + 1)
  }

  ghost function EntriesLen(keys: seq<KeyPair>, i: nat): nat
    requires i <= |keys|
    decreases |keys| - i
  {
    if i == |keys| then 0 else EntryLen(keys[i]) + EntriesLen(keys, i + 1)
  }

  lemma {:induction false} FramedEntryAt(t: Texts, s: Bytes, pos: nat, k: KeyPair, rest: Bytes)
    requires StorableKey(t, k)
    requires At(s, pos, Le(|k.pubk|, U32_LEN) + k.pubk + Le(|k.privk|, U32_LEN) + k.privk + rest)
    ensures EntryAt(s, pos, k) && At(s, pos + EntryLen(k), rest)
  {
    var a, b := Le(|k.pubk|, U32_LEN) + k.pubk, Le(|k.privk|, U32_LEN);
    AppendAssoc(a, b, k.privk);
    AppendAssoc(a, b + k.privk, rest);
    FramedTextAt(s, pos, U32_LEN, k.pubk, b + k.privk + rest);
    FramedTextAt(s, pos + U32_LEN + |k.pubk|, U32_LEN, k.privk, rest);
  }

  /** Framed entries stand one after the other: for each, the length of its public key in four bytes,
      the key, and the same for its private key. */
  lemma {:induction false} FramedEntriesAt(t: Texts, s: Bytes, pos: nat, keys: seq<KeyPair>, i: nat)
    requires forall j :: 0 <= j < |keys| ==> StorableKey(t, keys[j])
    requires i <= |keys| && At(s, pos, FrameKeys(keys[i..]))
    ensures EntriesAt(t, s, pos, keys, i) && |FrameKeys(keys[i..])| == EntriesLen(keys, i)
    decreases |keys| - i
  {
    if i < |keys| {
      SuffixCons(keys, i);
      FramedEntryAt(t, s, pos, keys[i], FrameKeys(keys[i + 1..]));
      FramedEntriesAt(t, s, pos + EntryLen(keys[i]), keys, i + 1);
    }
  }

  /** An entry that stands at the cursor is read, and leaves the cursor and the count at the rest. */
  lemma {:induction false} EntryRead(t: Texts, k: KeyPair, s: Bytes, pos: nat, left: nat)
    requires StorableKey(t, k) && EntryAt(s, pos, k)
    ensures ReadEntry(t, s, pos, EntryLen(k) + left) == Turn(k, pos + EntryLen(k), left)
  {
    TakesKey(s, pos, k.pubk, U32_LEN + |k.privk| + left);
    TakesKey(s, pos + U32_LEN + |k.pubk|, k.privk, left);
  }

  lemma {:induction false} ParseStep(
    t: Texts, s: Bytes, pos: nat, n: nat, k: KeyPair, next: nat, left: nat, keys: seq<KeyPair>, end: nat)
    requires pos <= |s| && next <= |s| && n > 0 && ReadEntry(t, s, pos, n) == Turn(k, next, left)
    requires ParseKeys(t, s, next, left) == Entries(keys, end)
    ensures ParseKeys(t, s, pos, n) == Entries([k] + keys, end)
  {
  }

  lemma {:induction false} ParseEntry(
    t: Texts, k: KeyPair, s: Bytes, pos: nat, n: nat, next: nat, left: nat, keys: seq<KeyPair>, end: nat)
    requires StorableKey(t, k) && EntryAt(s, pos, k) && next == pos + EntryLen(k) <= |s| && n == EntryLen(k) + left
    requires ParseKeys(t, s, next, left) == Entries(keys, end)
    ensures ParseKeys(t, s, pos, n) == Entries([k] + keys, end)
  {
    EntryRead(t, k, s, pos, left);
    ParseStep(t, s, pos, n, k, next, left, keys, end);
  }

  lemma {:induction false} ParseSuffix(
    t: Texts, s: Bytes, pos: nat, n: nat, next: nat, left: nat, keys: seq<KeyPair>, i: nat, end: nat)
    requires i < |keys| && StorableKey(t, keys[i]) && EntryAt(s, pos, keys[i])
    requires next == pos + EntryLen(keys[i]) <= |s| && n == EntryLen(keys[i]) + left
    requires ParseKeys(t, s, next, left) == Entries(keys[i + 1..], end)
    ensures ParseKeys(t, s, pos, n) == Entries(keys[i..], end)
  {
    ParseEntry(t, keys[i], s, pos, n, next, left, keys[i + 1..], end);
    SuffixCons(keys, i);
  }

  lemma {:induction false} EntriesParse(t: Texts, s: Bytes, pos: nat, keys: seq<KeyPair>, i: nat, n: nat)
    requires i <= |keys| && EntriesAt(t, s, pos, keys, i) && n == EntriesLen(keys, i) && pos + n <= |s|
    ensures ParseKeys(t, s, pos, n) == Entries(keys[i..], pos + n)
    decreases |keys| - i
  {
    if i == |keys| {
      assert keys[i..] == [];
    } else {
      var next, left := pos + EntryLen(keys[i]), EntriesLen(keys, i + 1);
      EntriesParse(t, s, next, keys, i + 1, left);
      ParseSuffix(t, s, pos, n, next, left, keys, i, pos + n);
    }
  }

  lemma {:induction false} NetworksRoundTrip(t: Texts, s: Bytes, pos: nat, hashes: seq<Bytes>)
    requires forall i :: 0 <= i < |hashes| ==> |hashes[i]| == CHAIN_HASH_LEN && t.network(hashes[i])
    requires At(s, pos, Concat(hashes))
    ensures ParseNetworks(t, s, pos, |hashes|) == Ok(hashes)
    decreases |hashes|
  {
    if hashes != [] {
      AtSplit(s, pos, hashes[0], Concat(hashes[1..]));
      NetworksRoundTrip(t, s, pos + CHAIN_HASH_LEN, hashes[1..]);
      assert [hashes[0]] + hashes[1..] == hashes;
    }
  }

  /** The fields of a framed record stand in `s` from its start, with `n` bytes of key map. */
  ghost predicate RecordAt(s: Bytes, r: Record, n: nat) {
    var pos1 := U64_LEN + |r.desc|;
    var pos3 := pos1 + U64_LEN + n;
    && TextAt(s, 0, U64_LEN, r.desc)
    && pos3 + U8_LEN <= |s|
    && FromLe(s, pos1, U64_LEN) == n && FromLe(s, pos3, U8_LEN) == |r.networks|
  }

  lemma {:induction false} FieldsAt(s: Bytes, a: Bytes, desc: Bytes, b: Bytes, keys: Bytes, c: Bytes, networks: Bytes)
    requires At(s, 0, a + desc + b + keys + c + networks)
    ensures At(s, 0, a) && At(s, |a|, desc) && At(s, |a| + |desc|, b) && At(s, |a| + |desc| + |b|, keys)
    ensures At(s, |a| + |desc| + |b| + |keys|, c) && At(s, |a| + |desc| + |b| + |keys| + |c|, networks)
  {
    AtSplit(s, 0, a + desc + b + keys + c, networks);
    AtSplit(s, 0, a + desc + b + keys, c);
    AtSplit(s, 0, a + desc + b, keys);
    AtSplit(s, 0, a + desc, b);
    AtSplit(s, 0, a, desc);
  }

  /** The layout of a framed record: the descriptor's length in eight bytes and its text, the length
      of the key map in eight bytes and its entries, the number of networks in one byte and their
      hashes. */
  lemma {:induction false} FramedRecordAt(t: Texts, s: Bytes, r: Record)
    requires Storable(t, r) && At(s, 0, Frame(r))
    ensures
      var keys := FrameKeys(r.keys);
      var pos2 := U64_LEN + |r.desc| + U64_LEN;
      RecordAt(s, r, |keys|) && At(s, pos2, keys) && At(s, pos2 + |keys| + U8_LEN, Concat(r.networks))
  {
    var keys := FrameKeys(r.keys);
    var a, b, c := Le(|r.desc|, U64_LEN), Le(|keys|, U64_LEN), Le(|r.networks|, U8_LEN);
    var pos1 := U64_LEN + |r.desc|;
    FieldsAt(s, a, r.desc, b, keys, c, Concat(r.networks));
    LengthRoundTrip(s, 0, |r.desc|, U64_LEN);
    LengthRoundTrip(s, pos1, |keys|, U64_LEN);
    LengthRoundTrip(s, pos1 + U64_LEN + |keys|, |r.networks|, U8_LEN);
  }

  lemma {:induction false} HeadRead(t: Texts, s: Bytes, r: Record, n: nat)
    requires RecordAt(s, r, n) && t.desc(r.desc)
    ensures ParseHead(t, s) == Ok((r.desc, n, U64_LEN + |r.desc| + U64_LEN))
  {
  }

  lemma {:induction false} NetworkSetRead(t: Texts, s: Bytes, pos: nat, hashes: seq<Bytes>)
    requires forall i :: 0 <= i < |hashes| ==> |hashes[i]| == CHAIN_HASH_LEN && t.network(hashes[i])
    requires pos + U8_LEN <= |s| && FromLe(s, pos, U8_LEN) == |hashes| && At(s, pos + U8_LEN, Concat(hashes))
    ensures ParseNetworkSet(t, s, pos) == Ok(SetOf(hashes))
  {
    NetworksRoundTrip(t, s, pos + U8_LEN, hashes);
  }

  /** Parsing the framed entries with the count set to their length consumes exactly them: the
      count equals the encoded length of the entries left at every turn, so it never runs below
      zero and the loop ends at the network count. */
  lemma {:induction false} KeysRoundTrip(t: Texts, s: Bytes, pos: nat, keys: seq<KeyPair>, n: nat)
    requires (forall i :: 0 <= i < |keys| ==> StorableKey(t, keys[i])) && At(s, pos, FrameKeys(keys))
    requires n == |FrameKeys(keys)|
    ensures ParseKeys(t, s, pos, n) == Entries(keys, pos + n)
  {
    assert keys[0..] == keys;
    FramedEntriesAt(t, s, pos, keys, 0);
    EntriesParse(t, s, pos, keys, 0, n);
  }

  lemma {:induction false} PartsRead(
    t: Texts, s: Bytes, desc: Bytes, n: nat, pos: nat, keys: seq<KeyPair>, end: nat, networks: set<Bytes>)
    requires pos <= |s| && end <= |s| && ParseHead(t, s) == Ok((desc, n, pos))
    requires ParseKeys(t, s, pos, n) == Entries(keys, end) && ParseNetworkSet(t, s, end) == Ok(networks)
    ensures Parse(t, s) == Ok(Parsed(desc, MapOf(keys), networks))
  {
  }

  lemma {:induction false} FramedHeadRead(t: Texts, r: Record, s: Bytes)
    requires Storable(t, r) && At(s, 0, Frame(r))
    ensures ParseHead(t, s) == Ok((r.desc, |FrameKeys(r.keys)|, U64_LEN + |r.desc| + U64_LEN))
  {
    FramedRecordAt(t, s, r);
    HeadRead(t, s, r, |FrameKeys(r.keys)|);
  }

  lemma {:induction false} FramedNetworksRead(t: Texts, r: Record, s: Bytes, pos: nat)
    requires Storable(t, r) && At(s, 0, Frame(r)) && pos == U64_LEN + |r.desc| + U64_LEN + |FrameKeys(r.keys)|
    ensures pos <= |s| && ParseNetworkSet(t, s, pos) == Ok(SetOf(r.networks))
  {
    FramedRecordAt(t, s, r);
    NetworkSetRead(t, s, pos, r.networks);
  }

  lemma {:induction false} FramedMapRead(t: Texts, r: Record, s: Bytes, pos: nat, n: nat)
    requires Storable(t, r) && At(s, 0, Frame(r))
    requires pos == U64_LEN + |r.desc| + U64_LEN && n == |FrameKeys(r.keys)|
    ensures pos <= |s| && ParseKeys(t, s, pos, n) == Entries(r.keys, pos + n)
  {
    FramedRecordAt(t, s, r);
    KeysRoundTrip(t, s, pos, r.keys, n);
  }

  lemma {:induction false} ParseFramed(t: Texts, r: Record, s: Bytes, pos: nat, n: nat)
    requires Storable(t, r) && At(s, 0, Frame(r))
    requires pos == U64_LEN + |r.desc| + U64_LEN && n == |FrameKeys(r.keys)|
    ensures Parse(t, s) == Ok(Parsed(r.desc, MapOf(r.keys), SetOf(r.networks)))
  {
    FramedHeadRead(t, r, s);
    FramedNetworksRead(t, r, s, pos + n);
    FramedMapRead(t, r, s, pos, n);
    PartsRead(t, s, r.desc, n, pos, r.keys, pos + n, SetOf(r.networks));
  }

  /** Parsing a framed record returns what was framed, whatever follows it. */
  lemma {:induction false} RecordRoundTrip(t: Texts, r: Record, tail: Bytes)
    requires Storable(t, r)
    ensures Parse(t, Frame(r) + tail) == Ok(Parsed(r.desc, MapOf(r.keys), SetOf(r.networks)))
  {
    var s := Frame(r) + tail;
    assert At(s, 0, Frame(r)) by {
      SliceIsSubsequence(s, 0, |Frame(r)|);
      assert s[0..|Frame(r)|] == Frame(r);
    }
    ParseFramed(t, r, s, U64_LEN + |r.desc| + U64_LEN, |FrameKeys(r.keys)|);
  }

  /** The entries of a key map come back as that map: each with its value, and no other key. */
  lemma {:induction false} MapOfEntries(keys: seq<KeyPair>)
    requires forall i, j :: 0 <= i < j < |keys| ==> keys[i].pubk != keys[j].pubk
    ensures MapOf(keys).Keys == set i | 0 <= i < |keys| :: keys[i].pubk
    ensures forall i :: 0 <= i < |keys| ==> keys[i].pubk in MapOf(keys) && MapOf(keys)[keys[i].pubk] == keys[i].privk
    decreases |keys|
  {
    if keys != [] {
      var n := |keys| - 1;
      MapOfEntries(keys[..n]);
      assert forall i :: 0 <= i < n ==> keys[..n][i] == keys[i];
    }
  }

  // ---------------------------------------------------------------- keys and ranges

  const HASH_LEN: nat := 32

  datatype RecoveryKey = RecoveryKey(recoverAt: nat, hash: Bytes)

  ghost predicate ValidKey(k: RecoveryKey) {
    k.recoverAt < Pow256(U32_LEN) && |k.hash| == HASH_LEN
  }

  function EncodeKey(k: RecoveryKey): Bytes {
    Be(k.recoverAt, U32_LEN) + k.hash
  }

  function DecodeKey(s: Bytes): Option<RecoveryKey> {
    if |s| != U32_LEN + HASH_LEN then None else Some(RecoveryKey(FromBe(s[..U32_LEN]), s[U32_LEN..]))
  }

  /** A key's encoding: four bytes of height, most significant first, and the hash. */
  lemma {:induction false} KeyLayout(k: RecoveryKey)
    requires ValidKey(k)
    ensures k.recoverAt <= U32_MAX && |EncodeKey(k)| == 36 && EncodeKey(k)[4..] == k.hash
    ensures EncodeKey(k)[0] == k.recoverAt / 0x100_0000 && EncodeKey(k)[1] == (k.recoverAt / 0x1_0000) % 256
    ensures EncodeKey(k)[2] == (k.recoverAt / 0x100) % 256 && EncodeKey(k)[3] == k.recoverAt % 256
  {
    Widths();
    var n := k.recoverAt;
    assert Pow256(0) == 1 && Pow256(1) == 0x100 && Pow256(2) == 0x1_0000 && Pow256(3) == 0x100_0000;
    BeDigit(n, U32_LEN, 0);
    BeDigit(n, U32_LEN, 1);
    BeDigit(n, U32_LEN, 2);
    BeDigit(n, U32_LEN, 3);
    assert n / 0x100_0000 < 256;
  }

  /** Keys and their encodings correspond one to one. */
  lemma {:induction false} KeyRoundTrip(k: RecoveryKey, s: Bytes)
    ensures ValidKey(k) ==> DecodeKey(EncodeKey(k)) == Some(k)
    ensures DecodeKey(s).Some? ==> ValidKey(DecodeKey(s).value) && EncodeKey(DecodeKey(s).value) == s
  {
    if ValidKey(k) {
      assert EncodeKey(k)[..U32_LEN] == Be(k.recoverAt, U32_LEN) && EncodeKey(k)[U32_LEN..] == k.hash;
      BeRoundTrip(k.recoverAt, U32_LEN);
    }
    if DecodeKey(s).Some? {
      FromBeRoundTrip(s[..U32_LEN]);
      assert s[..U32_LEN] + s[U32_LEN..] == s;
    }
  }

  /** The order of the database: lexicographic, a prefix first. */
  predicate Less(a: Bytes, b: Bytes) {
    b != [] && (a == [] || a[0] < b[0] || (a[0] == b[0] && Less(a[1..], b[1..])))
  }

  lemma {:induction false} LessTotal(a: Bytes, b: Bytes)
    ensures a == b || Less(a, b) || Less(b, a)
    decreases |a|
  {
    if a != [] && b != [] && a[0] == b[0] {
      LessTotal(a[1..], b[1..]);
      assert a == [a[0]] + a[1..] && b == [b[0]] + b[1..];
    }
  }

  lemma {:induction false} LessTrans(a: Bytes, b: Bytes, c: Bytes)
    requires Less(a, b) && Less(b, c)
    ensures Less(a, c)
    decreases |a|
  {
    if a != [] && a[0] == b[0] == c[0] {
      LessTrans(a[1..], b[1..], c[1..]);
    }
  }

  lemma {:induction false} LessAsymmetric(a: Bytes, b: Bytes)
    ensures !(Less(a, b) && Less(b, a))
    decreases |a|
  {
    if a != [] && b != [] {
      LessAsymmetric(a[1..], b[1..]);
    }
  }

  lemma {:induction false} LessAppend(a: Bytes, b: Bytes, x: Bytes, y: Bytes)
    requires |a| == |b|
    ensures Less(a + x, b + y) <==> Less(a, b) || (a == b && Less(x, y))
    decreases |a|
  {
    if a == [] {
      assert a + x == x && b + y == y;
    } else {
      LessAppend(a[1..], b[1..], x, y);
      assert (a + x)[1..] == a[1..] + x && (b + y)[1..] == b[1..] + y;
      assert a == [a[0]] + a[1..] && b == [b[0]] + b[1..];
    }
  }

  lemma {:induction false} BeInjective(m: nat, n: nat, w: nat)
    requires m < Pow256(w) && n < Pow256(w)
    ensures Be(m, w) == Be(n, w) <==> m == n
  {
    BeRoundTrip(m, w);
    BeRoundTrip(n, w);
  }

  /** Big-endian bytes are ordered like the numbers. */
  lemma {:induction false} BeOrder(m: nat, n: nat, w: nat)
    requires m < Pow256(w) && n < Pow256(w)
    ensures Less(Be(m, w), Be(n, w)) <==> m < n
  {
    if w > 0 {
      BeOrder(m / 256, n / 256, w - 1);
      BeInjective(m / 256, n / 256, w - 1);
      LessAppend(Be(m / 256, w - 1), Be(n / 256, w - 1), [m % 256], [n % 256]);
    }
  }

  datatype Bound = Included(n: nat) | Excluded(n: nat) | Unbounded

  /** A key lies within bounds given as heights, compared as the database compares: the bound's
      four bytes against the whole key. */
  predicate InRange(lo: Bound, hi: Bound, key: Bytes) {
    && (match lo
        case Included(n) => Be(n, U32_LEN) == key || Less(Be(n, U32_LEN), key)
        case Excluded(n) => Less(Be(n, U32_LEN), key)
        case Unbounded => true)
    && (match hi
        case Included(n) => key == Be(n, U32_LEN) || Less(key, Be(n, U32_LEN))
        case Excluded(n) => Less(key, Be(n, U32_LEN))
        case Unbounded => true)
  }

  predicate HeightInRange(lo: Bound, hi: Bound, h: nat) {
    && (match lo case Included(n) => n <= h case Excluded(n) => n < h case Unbounded => true)
    && (match hi case Included(n) => h <= n case Excluded(n) => h < n case Unbounded => true)
  }

  ghost predicate BoundOk(b: Bound) {
    b.Unbounded? || b.n < Pow256(U32_LEN)
  }

  lemma {:induction false} KeyAgainstBound(k: RecoveryKey, n: nat)
    requires ValidKey(k) && n < Pow256(U32_LEN)
    ensures Less(Be(n, U32_LEN), EncodeKey(k)) <==> n <= k.recoverAt
    ensures Less(EncodeKey(k), Be(n, U32_LEN)) <==> k.recoverAt < n
    ensures EncodeKey(k) != Be(n, U32_LEN)
  {
    BeOrder(n, k.recoverAt, U32_LEN);
    BeOrder(k.recoverAt, n, U32_LEN);
    BeInjective(n, k.recoverAt, U32_LEN);
    assert Be(n, U32_LEN) + [] == Be(n, U32_LEN);
    LessAppend(Be(n, U32_LEN), Be(k.recoverAt, U32_LEN), [], k.hash);
    LessAppend(Be(k.recoverAt, U32_LEN), Be(n, U32_LEN), k.hash, []);
  }

  /** What a range query really selects: the heights from the start on, excluded or not, and below
      the end, included or not. So it takes in an excluded start that the end admits, and leaves
      out an included end that the start admits; at every other height it selects by the range. */
  lemma {:induction false} RangeSelects(lo: Bound, hi: Bound, k: RecoveryKey)
    requires ValidKey(k) && BoundOk(lo) && BoundOk(hi)
    ensures InRange(lo, hi, EncodeKey(k)) <==>
            (lo.Unbounded? || lo.n <= k.recoverAt) && (hi.Unbounded? || k.recoverAt < hi.n)
    ensures
      (InRange(lo, hi, EncodeKey(k)) <==> HeightInRange(lo, hi, k.recoverAt)) <==>
      && !(lo == Excluded(k.recoverAt) && (hi.Unbounded? || k.recoverAt < hi.n))
      && !(hi == Included(k.recoverAt) && HeightInRange(lo, Unbounded, k.recoverAt))
  {
    if !lo.Unbounded? {
      KeyAgainstBound(k, lo.n);
    }
    if !hi.Unbounded? {
      KeyAgainstBound(k, hi.n);
    }
  }

  // ---------------------------------------------------------------- the store

  const NONCE_LEN: nat := 12
  const TAG_LEN: nat := 16

  /** The cipher: sealing appends a tag of 16 bytes, opening checks it. */
  datatype Cipher = Cipher(seal: (Bytes, Bytes) -> Bytes, open: (Bytes, Bytes) -> Option<Bytes>)

  ghost predicate Sound(c: Cipher) {
    forall nonce, plain :: |c.seal(nonce, plain)| == |plain| + TAG_LEN
                           && c.open(nonce, c.seal(nonce, plain)) == Some(plain)
  }

  function OpenEntry(c: Cipher, t: Texts, raw: Bytes): Result<Parsed, RecoveryError> {
    if |raw| <= NONCE_LEN + TAG_LEN then Err(EntryTooShort(|raw|))
    else
      var at := |raw| - NONCE_LEN;
      match c.open(raw[at..], raw[..at])
      case None => Err(Decryption)
      case Some(plain) => Parse(t, plain)
  }

  function Selected(db: map<Bytes, Bytes>, lo: Bound, hi: Bound): set<Bytes> {
    set k | k in db && InRange(lo, hi, k)
  }

  function KeysOf(descs: seq<(RecoveryKey, Parsed)>): set<Bytes> {
    set i | 0 <= i < |descs| :: EncodeKey(descs[i].0)
  }

  lemma {:induction false} KeysSnoc(descs: seq<(RecoveryKey, Parsed)>, d: (RecoveryKey, Parsed))
    ensures KeysOf(descs + [d]) == KeysOf(descs) + {EncodeKey(d.0)}
  {
    var all := descs + [d];
    assert all[|descs|] == d;
    forall k | k in KeysOf(descs) ensures k in KeysOf(all) {
      var i :| 0 <= i < |descs| && EncodeKey(descs[i].0) == k;
      assert all[i] == descs[i];
    }
  }

  /** The keys come in the database's order. */
  ghost predicate Ascending(descs: seq<(RecoveryKey, Parsed)>) {
    forall i, j :: 0 <= i < j < |descs| ==> Less(EncodeKey(descs[i].0), EncodeKey(descs[j].0))
  }

  /** Every key read so far comes before every key left. */
  ghost predicate AllBefore(done: set<Bytes>, todo: set<Bytes>) {
    forall a, b :: a in done && b in todo ==> Less(a, b)
  }

  lemma {:induction false} AscendingSnoc(descs: seq<(RecoveryKey, Parsed)>, d: (RecoveryKey, Parsed), todo: set<Bytes>)
    requires Ascending(descs) && AllBefore(KeysOf(descs), todo) && EncodeKey(d.0) in todo
    ensures Ascending(descs + [d])
  {
    forall i | 0 <= i < |descs| ensures Less(EncodeKey(descs[i].0), EncodeKey(d.0)) {
      assert EncodeKey(descs[i].0) in KeysOf(descs);
    }
  }

  lemma {:induction false} NoneBefore(todo: set<Bytes>, k: Bytes)
    requires AllBefore({k}, todo - {k})
    ensures forall x :: Less(x, k) ==> x !in todo
  {
    forall x | Less(x, k) ensures x !in todo {
      LessAsymmetric(x, k);
    }
  }

  method MinKey(keys: set<Bytes>) returns (k: Bytes)
    requires keys != {}
    ensures k in keys && AllBefore({k}, keys - {k})
  {
    k :| k in keys;
    var todo := keys - {k};
    while todo != {}
      invariant k in keys && todo <= keys - {k} && AllBefore({k}, keys - todo - {k})
      decreases todo
    {
      var x :| x in todo;
      LessTotal(k, x);
      if Less(x, k) {
        forall b | b in keys - todo - {k} ensures Less(x, b) {
          LessTrans(x, k, b);
        }
        k := x;
      }
      todo := todo - {x};
    }
  }

  class DescriptorRecovery {
    const cipher: Cipher
    const texts: Texts
    const hash: Bytes -> Bytes
    var db: map<Bytes, Bytes>

    ghost predicate Valid()
      reads this
    {
      forall k :: k in db ==> DecodeKey(k).Some?
    }

    constructor (cipher: Cipher, texts: Texts, hash: Bytes -> Bytes)
      ensures this.cipher == cipher && this.texts == texts && this.hash == hash && db == map[] && Valid()
    {
      this.cipher, this.texts, this.hash := cipher, texts, hash;
      db := map[];
    }

    /** Stores a record under its height and descriptor hash. */
    method AddDesc(recoverAt: nat, r: Record, nonce: Bytes)
      requires Valid() && |nonce| == NONCE_LEN && |hash(r.desc)| == HASH_LEN
      requires recoverAt < Pow256(U32_LEN)
      modifies this
      ensures Valid()
      ensures db == old(db)[EncodeKey(RecoveryKey(recoverAt, hash(r.desc))) := cipher.seal(nonce, Frame(r)) + nonce]
      ensures
        Sound(cipher) && Storable(texts, r) ==>
          OpenEntry(cipher, texts, db[EncodeKey(RecoveryKey(recoverAt, hash(r.desc)))])
          == Ok(Parsed(r.desc, MapOf(r.keys), SetOf(r.networks)))
    {
      var key := Be(recoverAt, U32_LEN) + hash(r.desc);
      var bytes := FrameRecord(r);
      bytes := cipher.seal(nonce, bytes);
      bytes := bytes + nonce;
      db := db[key := bytes];
      if Sound(cipher) && Storable(texts, r) {
        var sealed := cipher.seal(nonce, Frame(r));
        assert bytes[..|bytes| - NONCE_LEN] == sealed && bytes[|bytes| - NONCE_LEN..] == nonce;
        RecordRoundTrip(texts, r, []);
        assert Frame(r) + [] == Frame(r);
      }
    }

    method ReadEntry(lo: Bound, hi: Bound, k: Bytes) returns (r: Result<(RecoveryKey, Parsed), RecoveryError>)
      requires Valid() && k in Selected(db, lo, hi)
      ensures r.Ok? ==> Holds(lo, hi, r.value) && EncodeKey(r.value.0) == k
      ensures r.Err? ==> OpenEntry(cipher, texts, db[k]) == Err(r.error)
    {
      KeyRoundTrip(RecoveryKey(0, []), k);
      var key := DecodeKey(k);
      var parsed := OpenStored(db[k]);
      r := if parsed.Ok? then Ok((key.value, parsed.value)) else Err(parsed.error);
    }

    /** Reads the entries in range in the order of their keys; fails as the first that fails. */
    method ReadDescs(lo: Bound, hi: Bound) returns (r: Result<seq<(RecoveryKey, Parsed)>, RecoveryError>)
      requires Valid()
      ensures r.Ok? ==>
                && Ascending(r.value)
                && (forall i :: 0 <= i < |r.value| ==> Holds(lo, hi, r.value[i]))
                && KeysOf(r.value) == Selected(db, lo, hi)
      ensures r.Err? ==> exists k :: FirstFault(lo, hi, k, r.error)
    {
      var descs: seq<(RecoveryKey, Parsed)> := [];
      var todo := Selected(db, lo, hi);
      ghost var all := todo;
      while todo != {}
        invariant todo <= all && KeysOf(descs) == all - todo
        invariant Ascending(descs) && AllBefore(KeysOf(descs), todo)
        invariant forall i :: 0 <= i < |descs| ==> Holds(lo, hi, descs[i])
        invariant AllOpen(all - todo)
        decreases todo
      {
        var k := MinKey(todo);
        var entry := ReadEntry(lo, hi, k);
        if entry.Err? {
          NoneBefore(todo, k);
          assert FirstFault(lo, hi, k, entry.error);
          return Err(entry.error);
        }
        KeysSnoc(descs, entry.value);
        AscendingSnoc(descs, entry.value, todo);
        descs := descs + [entry.value];
        todo := todo - {k};
      }
      r := Ok(descs);
    }

    /** The entry under `k` fails, and every entry in range before it does not. */
    ghost predicate FirstFault(lo: Bound, hi: Bound, k: Bytes, e: RecoveryError)
      reads this
    {
      && k in Selected(db, lo, hi) && OpenEntry(cipher, texts, db[k]) == Err(e)
      && forall x :: x in Selected(db, lo, hi) && Less(x, k) ==> OpenEntry(cipher, texts, db[x]).Ok?
    }

    /** The entries under these keys all open. */
    ghost predicate AllOpen(keys: set<Bytes>)
      reads this
    {
      forall x :: x in keys ==> x in db && OpenEntry(cipher, texts, db[x]).Ok?
    }

    /** Splits off nonce and tag, decrypts and parses. */
    method OpenStored(raw: Bytes) returns (r: Result<Parsed, RecoveryError>)
      ensures r == OpenEntry(cipher, texts, raw)
    {
      if |raw| <= NONCE_LEN + TAG_LEN {
        return Err(EntryTooShort(|raw|));
      }
      var at := |raw| - NONCE_LEN;
      var plain := cipher.open(raw[at..], raw[..at]);
      if plain.None? {
        return Err(Decryption);
      }
      r := ParseRecord(texts, plain.value);
    }

    /** The pair is what is stored under its key, in range. */
    ghost predicate Holds(lo: Bound, hi: Bound, entry: (RecoveryKey, Parsed))
      reads this
    {
      var k := EncodeKey(entry.0);
      k in Selected(db, lo, hi) && OpenEntry(cipher, texts, db[k]) == Ok(entry.1)
    }
  }
}
