/**
 Per-SSID quick-start hints: the file name of an SSID, the printed form of a MAC address and the list of access
 points recorded in a hint file.
 */
module WifiHints {
  import opened Base

  type Byte = x: int | 0 <= x < 256
  type Nibble = x: int | 0 <= x < 16

  const MAX_BSS_PER_SSID := 16
  const HINT_TTL_DAYS := 30
  const HINTS_VERSION := 1

  // ---------------------------------------------------------------- hexadecimal

  function LowerHex(d: Nibble): char {
    "0123456789abcdef"[d]
  }

  function UpperHex(d: Nibble): char {
    "0123456789ABCDEF"[d]
  }

  function HexValue(c: char): Option<Nibble> {
    if '0' <= c <= '9' then Some(c as int - '0' as int)
    else if 'a' <= c <= 'f' then Some(c as int - 'a' as int + 10)
    else if 'A' <= c <= 'F' then Some(c as int - 'A' as int + 10)
    else None
  }

  lemma HexRoundTrip(d: Nibble)
    ensures HexValue(LowerHex(d)) == Some(d) && HexValue(UpperHex(d)) == Some(d)
    ensures LowerHex(d) != ':' && LowerHex(d) != '+'
  {
  }

  // ---------------------------------------------------------------- file names

  /** The bytes that stand for themselves in a file name. */
  predicate Plain(b: Byte) {
    'A' as int <= b <= 'Z' as int || 'a' as int <= b <= 'z' as int || '0' as int <= b <= '9' as int
    || b == '.' as int || b == '_' as int || b == '-' as int
  }

  function EncodeByte(b: Byte): string {
    if Plain(b) then [b as char] else ['%', UpperHex(b / 16), UpperHex(b % 16)]
  }

  function Encoded(bytes: seq<Byte>): string {
    if bytes == [] then [] else EncodeByte(bytes[0]) + Encoded(bytes[1..])
  }

  /** Reads a file name back; only used to show that nothing is lost. */
  function Decoded(name: string): Option<seq<Byte>> {
    if name == [] then Some([])
    else if name[0] == '%' then
      if |name| < 3 || HexValue(name[1]).None? || HexValue(name[2]).None? then None
      else
        var rest := Decoded(name[3..]);
        if rest.None? then None else Some([HexValue(name[1]).value * 16 + HexValue(name[2]).value] + rest.value)
    else if name[0] as int >= 256 then None
    else
      var rest := Decoded(name[1..]);
      if rest.None? then None else Some([name[0] as int] + rest.value)
  }

  lemma {:induction false} EncodedNext(encoded: string, bytes: seq<Byte>, i: nat)
    requires i < |bytes|
    ensures (encoded + EncodeByte(bytes[i])) + Encoded(bytes[i + 1..]) == encoded + Encoded(bytes[i..])
  {
    hide EncodeByte;
    assert bytes[i..][0] == bytes[i] && bytes[i..][1..] == bytes[i + 1..];
  }

  method EncodeSsid(bytes: seq<Byte>) returns (encoded: string)
    ensures encoded == Encoded(bytes)
  {
    encoded := [];
    var i := 0;
    while i < |bytes|
      invariant 0 <= i <= |bytes|
      invariant encoded + Encoded(bytes[i..]) == Encoded(bytes)
    {
      EncodedNext(encoded, bytes, i);
      encoded := encoded + EncodeByte(bytes[i]);
      i := i + 1;
    }
  }

  /** The encoding has a left inverse. */
  lemma {:induction false} DecodeEncoded(bytes: seq<Byte>)
    ensures Decoded(Encoded(bytes)) == Some(bytes)
  {
    if bytes != [] {
      var b, rest := bytes[0], Encoded(bytes[1..]);
      DecodeEncoded(bytes[1..]);
      if Plain(b) {
        assert Encoded(bytes) == [b as char] + rest;
        assert Encoded(bytes)[1..] == rest;
      } else {
        var hi, lo: Nibble := b / 16, b % 16;
        HexRoundTrip(hi);
        HexRoundTrip(lo);
        assert Encoded(bytes) == ['%', UpperHex(hi), UpperHex(lo)] + rest;
        assert Encoded(bytes)[3..] == rest;
      }
      assert [b] + bytes[1..] == bytes;
    }
  }

  /** Letters, digits, dot, underscore and dash stay; every other byte becomes a percent sign and two upper-case
      digits. */
  lemma {:induction false} EncodedOne(b: Byte)
    ensures var c, t := b as char, Encoded([b]);
            if 'A' <= c <= 'Z' || 'a' <= c <= 'z' || '0' <= c <= '9' || c == '.' || c == '_' || c == '-' then t == [c]
            else |t| == 3 && t[0] == '%' && HexValue(t[1]) == Some(b / 16) && HexValue(t[2]) == Some(b % 16)
                 && !('a' <= t[1] <= 'f') && !('a' <= t[2] <= 'f')
  {
    assert Encoded([b]) == EncodeByte(b) + Encoded([b][1..]) == EncodeByte(b);
    hide Encoded;
    HexRoundTrip(b / 16);
    HexRoundTrip(b % 16);
  }

  /** The name is made byte by byte. */
  lemma {:induction false} EncodedParts(a: seq<Byte>, b: seq<Byte>)
    ensures Encoded(a + b) == Encoded(a) + Encoded(b)
    decreases |a|
  {
    hide EncodeByte;
    if a == [] {
      assert a + b == b;
    } else {
      EncodedParts(a[1..], b);
      assert (a + b)[1..] == a[1..] + b;
    }
  }

  /** Distinct SSIDs never share a hint file. */
  lemma {:induction false} FileNamesDistinct(a: seq<Byte>, b: seq<Byte>)
    ensures Encoded(a) == Encoded(b) ==> a == b
  {
    DecodeEncoded(a);
    DecodeEncoded(b);
  }

  predicate SafeInFileName(c: char) {
    c == '%' || (c as int < 256 && Plain(c as int))
  }

  /** The file name cannot name a directory: in particular it has no path separator. */
  lemma {:induction false} EncodedIsSafe(bytes: seq<Byte>, i: nat)
    requires i < |Encoded(bytes)|
    ensures SafeInFileName(Encoded(bytes)[i]) && Encoded(bytes)[i] != '/'
  {
    var e := EncodeByte(bytes[0]);
    if i < |e| {
      assert Encoded(bytes)[i] == e[i];
    } else {
      EncodedIsSafe(bytes[1..], i - |e|);
    }
  }

  // ---------------------------------------------------------------- MAC addresses

  type Mac = m: seq<Byte> | |m| == 6 witness [0, 0, 0, 0, 0, 0]

  function HexByte(b: Byte): string {
    [LowerHex(b / 16), LowerHex(b % 16)]
  }

  /** The bytes in hexadecimal, joined by colons. */
  function Joined(bytes: seq<Byte>): string {
    if bytes == [] then []
    else if |bytes| == 1 then HexByte(bytes[0])
    else HexByte(bytes[0]) + [':'] + Joined(bytes[1..])
  }

  function MacToString(m: Mac): string {
    Joined(m)
  }

  /** `split(':')`: the parts between the separators, at least one. */
  function Split(s: string): (parts: seq<string>)
    ensures |parts| >= 1
  {
    if s == [] then [[]]
    else
      var rest := Split(s[1..]);
      if s[0] == ':' then [[]] + rest else [[s[0]] + rest[0]] + rest[1..]
  }

  /** Two characters read as one hexadecimal byte; a leading plus sign is allowed before a digit. */
  function ParseByte(part: string): Option<Byte> {
    if |part| != 2 then None
    else if part[0] == '+' then
      if HexValue(part[1]).Some? then Some(HexValue(part[1]).value) else None
    else if HexValue(part[0]).Some? && HexValue(part[1]).Some? then
      Some(HexValue(part[0]).value * 16 + HexValue(part[1]).value)
    else None
  }

  /** The bytes of the parts, or `None` if some part is not a byte. */
  function ParseParts(parts: seq<string>): (r: Option<seq<Byte>>)
    ensures r.Some? ==> |r.value| == |parts|
  {
    if parts == [] then Some([])
    else
      var b, rest := ParseByte(parts[0]), ParseParts(parts[1..]);
      if b.Some? && rest.Some? then Some([b.value] + rest.value) else None
  }

  /** What a text means as a MAC: exactly six parts, each a byte. */
  function MacOf(s: string): Option<Mac> {
    if |Split(s)| == 6 then ParseParts(Split(s)) else None
  }

  lemma {:induction false} ParsePartsAt(parts: seq<string>, bytes: seq<Byte>)
    ensures ParseParts(parts) == Some(bytes) <==>
            |bytes| == |parts| && forall i :: 0 <= i < |parts| ==> ParseByte(parts[i]) == Some(bytes[i])
    decreases |parts|
  {
    if parts != [] && bytes != [] {
      ParsePartsAt(parts[1..], bytes[1..]);
      assert bytes == [bytes[0]] + bytes[1..];
      assert forall i :: 0 < i < |parts| ==> parts[i] == parts[1..][i - 1];
      assert |bytes| == |parts| ==> forall i :: 0 < i < |bytes| ==> bytes[i] == bytes[1..][i - 1];
      if |bytes| == |parts| && forall i :: 0 <= i < |parts| ==> ParseByte(parts[i]) == Some(bytes[i]) {
        forall i | 0 <= i < |parts[1..]|
          ensures ParseByte(parts[1..][i]) == Some(bytes[1..][i])
        {
          assert ParseByte(parts[i + 1]) == Some(bytes[i + 1]);
        }
      }
      if ParseParts(parts) == Some(bytes) {
        forall i | 0 <= i < |parts|
          ensures ParseByte(parts[i]) == Some(bytes[i])
        {
          if i > 0 {
            assert ParseByte(parts[1..][i - 1]) == Some(bytes[1..][i - 1]);
          }
        }
      }
    }
  }

  method MacFromString(s: string) returns (r: Option<Mac>)
    ensures r == MacOf(s)
  {
    var parts := Split(s);
    var bytes: seq<Byte> := [];
    while |bytes| < 6
      invariant |bytes| <= 6 && |bytes| <= |parts|
      invariant forall i :: 0 <= i < |bytes| ==> ParseByte(parts[i]) == Some(bytes[i])
      decreases 6 - |bytes|
    {
      if |bytes| == |parts| {
        return None;
      }
      var b := ParseByte(parts[|bytes|]);
      if b.None? {
        if ParseParts(parts).Some? {
          ParsePartsAt(parts, ParseParts(parts).value);
        }
        return None;
      }
      bytes := bytes + [b.value];
    }
    if |parts| > 6 {
      return None;
    }
    ParsePartsAt(parts, bytes);
    return Some(bytes);
  }

  lemma {:induction false} SplitCons(c: char, s: string)
    requires c != ':'
    ensures Split([c] + s) == [[c] + Split(s)[0]] + Split(s)[1..]
  {
  }

  lemma {:induction false} SplitByte(b: Byte, s: string)
    ensures Split(HexByte(b) + s) == [HexByte(b) + Split(s)[0]] + Split(s)[1..]
    ensures ParseByte(HexByte(b)) == Some(b)
  {
    var hi, lo := LowerHex(b / 16), LowerHex(b % 16);
    HexRoundTrip(b / 16);
    HexRoundTrip(b % 16);
    assert HexByte(b) + s == [hi] + ([lo] + s);
    SplitCons(lo, s);
    SplitCons(hi, [lo] + s);
    assert [hi] + ([lo] + Split(s)[0]) == HexByte(b) + Split(s)[0];
  }

  lemma {:induction false} JoinedRoundTrip(bytes: seq<Byte>)
    requires bytes != []
    ensures ParseParts(Split(Joined(bytes))) == Some(bytes)
    decreases |bytes|
  {
    if |bytes| == 1 {
      SplitByte(bytes[0], []);
      assert HexByte(bytes[0]) + [] == Joined(bytes);
      assert HexByte(bytes[0]) + Split([])[0] == HexByte(bytes[0]);
      assert Split(Joined(bytes)) == [HexByte(bytes[0])];
      var parts := [HexByte(bytes[0])];
      assert parts[1..] == [] && ParseParts(parts[1..]) == Some([]);
      assert ParseParts(parts) == Some([bytes[0]] + []);
      assert [bytes[0]] + [] == bytes;
    } else {
      var rest := Joined(bytes[1..]);
      JoinedRoundTrip(bytes[1..]);
      SplitByte(bytes[0], [':'] + rest);
      assert ([':'] + rest)[1..] == rest;
      assert Split([':'] + rest) == [[]] + Split(rest);
      assert HexByte(bytes[0]) + ([':'] + rest) == Joined(bytes);
      assert HexByte(bytes[0]) + [] == HexByte(bytes[0]);
      assert Split(Joined(bytes)) == [HexByte(bytes[0])] + Split(rest);
      assert Split(Joined(bytes))[1..] == Split(rest);
      assert [bytes[0]] + bytes[1..] == bytes;
    }
  }

  /** Parsing a printed MAC address gives it back. */
  lemma {:induction false} MacRoundTrip(m: Mac)
    ensures MacOf(MacToString(m)) == Some(m)
  {
    JoinedRoundTrip(m);
  }

  /** The parts with colons between them. */
  function Rejoined(parts: seq<string>): string
    requires parts != []
  {
    if |parts| == 1 then parts[0] else parts[0] + [':'] + Rejoined(parts[1..])
  }

  /** A text is a MAC address exactly when it has six parts of two characters, a digit in base 16 or a plus sign and a
      digit; each part is a byte of the address. */
  lemma {:induction false} MacReads(s: string)
    ensures var parts := Split(s);
            MacOf(s).Some? <==>
              |parts| == 6 && forall i :: 0 <= i < 6 ==>
                                |parts[i]| == 2 && HexValue(parts[i][1]).Some?
                                && (parts[i][0] == '+' || HexValue(parts[i][0]).Some?)
    ensures MacOf(s).Some? ==>
              forall i :: 0 <= i < 6 ==>
                var p, b := Split(s)[i], MacOf(s).value[i];
                b == HexValue(p[1]).value + if p[0] == '+' then 0 else 16 * HexValue(p[0]).value
  {
    PartsRead(Split(s));
  }

  lemma {:induction false} PartsRead(parts: seq<string>)
    ensures ParseParts(parts).Some? <==> forall i :: 0 <= i < |parts| ==> ParseByte(parts[i]).Some?
    ensures ParseParts(parts).Some? ==>
              forall i :: 0 <= i < |parts| ==> ParseByte(parts[i]) == Some(ParseParts(parts).value[i])
    decreases |parts|
  {
    if parts != [] {
      PartsRead(parts[1..]);
      assert forall i :: 1 <= i < |parts| ==> parts[1..][i - 1] == parts[i];
    }
  }

  lemma {:induction false} RejoinedLonger(c: char, parts: seq<string>)
    requires parts != []
    ensures Rejoined([[c] + parts[0]] + parts[1..]) == [c] + Rejoined(parts)
  {
    var longer := [[c] + parts[0]] + parts[1..];
    assert longer[1..] == parts[1..];
    if |parts| > 1 {
      assert ([c] + parts[0]) + [':'] + Rejoined(parts[1..]) == [c] + (parts[0] + [':'] + Rejoined(parts[1..]));
    }
  }

  lemma {:induction false} SplitRejoined(s: string)
    ensures Rejoined(Split(s)) == s
    decreases |s|
  {
    if s != [] {
      var rest := Split(s[1..]);
      SplitRejoined(s[1..]);
      assert s == [s[0]] + s[1..];
      if s[0] == ':' {
        assert ([[]] + rest)[1..] == rest;
      } else {
        RejoinedLonger(s[0], rest);
      }
    }
  }

  /** No plus sign and no upper-case letter. */
  ghost predicate Lowered(s: string) {
    forall c :: c in s ==> c != '+' && !('A' <= c <= 'Z')
  }

  lemma {:induction false} LoweredParts(parts: seq<string>, i: nat)
    requires i < |parts| && Lowered(Rejoined(parts))
    ensures Lowered(parts[i])
    decreases |parts|
  {
    if |parts| > 1 && i > 0 {
      assert forall c :: c in Rejoined(parts[1..]) ==> c in Rejoined(parts);
      LoweredParts(parts[1..], i - 1);
    } else {
      assert forall c :: c in parts[0] ==> c in Rejoined(parts);
    }
  }

  lemma {:induction false} LoweredByte(part: string, b: Byte)
    requires ParseByte(part) == Some(b) && Lowered(part)
    ensures part == HexByte(b)
  {
    var hi, lo := HexValue(part[0]), HexValue(part[1]);
    assert part[0] in part && part[1] in part;
    assert b / 16 == hi.value && b % 16 == lo.value;
    assert part[0] == LowerHex(hi.value) && part[1] == LowerHex(lo.value);
  }

  lemma {:induction false} RejoinedBytes(parts: seq<string>, bytes: seq<Byte>)
    requires parts != [] && |bytes| == |parts| && forall i :: 0 <= i < |parts| ==> parts[i] == HexByte(bytes[i])
    ensures Rejoined(parts) == Joined(bytes)
    decreases |parts|
  {
    if |parts| > 1 {
      RejoinedBytes(parts[1..], bytes[1..]);
    }
  }

  lemma {:induction false} JoinedLowered(bytes: seq<Byte>)
    ensures Lowered(Joined(bytes))
    decreases |bytes|
  {
    if bytes != [] {
      assert Lowered(HexByte(bytes[0]));
      JoinedLowered(bytes[1..]);
    }
  }

  /** Printing a parsed text gives it back exactly when it has no plus sign and no upper-case digit. */
  lemma {:induction false} PrintParsedExactlyWhen(s: string)
    requires MacOf(s).Some?
    ensures MacToString(MacOf(s).value) == s <==> Lowered(s)
  {
    var parts, bytes := Split(s), MacOf(s).value;
    SplitRejoined(s);
    ParsePartsAt(parts, bytes);
    JoinedLowered(bytes);
    if Lowered(s) {
      forall i | 0 <= i < |parts|
        ensures parts[i] == HexByte(bytes[i])
      {
        LoweredParts(parts, i);
        LoweredByte(parts[i], bytes[i]);
      }
      RejoinedBytes(parts, bytes);
    }
  }

  // ---------------------------------------------------------------- recorded access points

  datatype StoredBss = StoredBss(bssid: string, freq: nat)

  datatype PersistedHints = PersistedHints(version: nat, ssid: string, updatedOn: nat, bss: seq<StoredBss>)

  function IndexOf(bss: seq<StoredBss>, bssid: string): (i: nat)
    ensures i <= |bss| && (i < |bss| ==> bss[i].bssid == bssid)
    ensures forall j :: 0 <= j < i ==> bss[j].bssid != bssid
  {
    if bss == [] || bss[0].bssid == bssid then 0 else 1 + IndexOf(bss[1..], bssid)
  }

  /** The first entry of the access point is refreshed in place, or a new entry goes to the end. */
  function Noted(bss: seq<StoredBss>, bssid: string, freq: nat): (r: seq<StoredBss>) {
    var i := IndexOf(bss, bssid);
    if i < |bss| then bss[i := StoredBss(bssid, freq)] else bss + [StoredBss(bssid, freq)]
  }

  function Youngest(bss: seq<StoredBss>): (r: seq<StoredBss>) {
    if |bss| > MAX_BSS_PER_SSID then bss[|bss| - MAX_BSS_PER_SSID..] else bss
  }

  function Merged(ssid: string, previous: Option<PersistedHints>, bssid: string, freq: nat, today: nat)
    : PersistedHints {
    var before := if previous.Some? then previous.value.bss else [];
    PersistedHints(HINTS_VERSION, ssid, today, Youngest(Noted(before, bssid, freq)))
  }

  /** A hint file that was read back: right version, right SSID. */
  predicate ReadFor(h: PersistedHints, ssid: string) {
    h.version == HINTS_VERSION && h.ssid == ssid
  }

  /** Updating or appending changes the list exactly when it says so. */
  method NoteBss(list: seq<StoredBss>, bssid: string, freq: nat) returns (bss: seq<StoredBss>, changed: bool)
    ensures bss == Noted(list, bssid, freq)
    ensures changed <==> bss != list
  {
    bss := list;
    var i := 0;
    while i < |bss| && bss[i].bssid != bssid
      invariant 0 <= i <= |bss|
      invariant forall j :: 0 <= j < i ==> bss[j].bssid != bssid
    {
      i := i + 1;
    }
    assert i == IndexOf(list, bssid);
    if i < |bss| {
      changed := bss[i].freq != freq;
      if changed {
        bss := bss[i := StoredBss(bssid, freq)];
        assert bss[i] != list[i];
      } else {
        assert list[i := StoredBss(bssid, freq)] == list;
      }
    } else {
      bss := bss + [StoredBss(bssid, freq)];
      changed := true;
      assert |bss| != |list|;
    }
  }

  /** Dropping the oldest entries always leaves a list that differs from the one before the update. */
  lemma {:induction false} DroppedDiffers(list: seq<StoredBss>, bssid: string, freq: nat)
    requires |Noted(list, bssid, freq)| > MAX_BSS_PER_SSID
    ensures Youngest(Noted(list, bssid, freq)) != list
  {
    var y := Youngest(Noted(list, bssid, freq));
    assert |y| == MAX_BSS_PER_SSID;
    if |list| == MAX_BSS_PER_SSID {
      assert IndexOf(list, bssid) == |list|;
      assert y[|y| - 1].bssid == bssid && list[|list| - 1].bssid != bssid;
    }
  }

  /** Merging one connected access point; a write is asked for exactly when the file would change. */
  method MergeBss(ssid: string, previous: Option<PersistedHints>, bssid: string, freq: nat, today: nat)
    returns (hints: PersistedHints, changed: bool)
    ensures hints == Merged(ssid, previous, bssid, freq, today)
    ensures (previous.Some? ==> ReadFor(previous.value, ssid)) ==> (changed <==> previous != Some(hints))
  {
    var start := if previous.Some? then previous.value.bss else [];
    var day := if previous.Some? then Some(previous.value.updatedOn) else None;
    var bss, contentChanged := NoteBss(start, bssid, freq);
    if |bss| > MAX_BSS_PER_SSID {
      DroppedDiffers(start, bssid, freq);
      bss := bss[|bss| - MAX_BSS_PER_SSID..];
      contentChanged := true;
    }
    hints := PersistedHints(HINTS_VERSION, ssid, today, bss);
    changed := contentChanged || day != Some(today);
  }

  ghost predicate DistinctBss(bss: seq<StoredBss>) {
    forall i, j :: 0 <= i < j < |bss| ==> bss[i].bssid != bss[j].bssid
  }

  /** A hint list as the plugin keeps it: short, one entry per access point. */
  ghost predicate Tidy(bss: seq<StoredBss>) {
    |bss| <= MAX_BSS_PER_SSID && DistinctBss(bss)
  }

  lemma {:induction false} MergeTidy(bss: seq<StoredBss>, bssid: string, freq: nat)
    requires Tidy(bss)
    ensures Tidy(Youngest(Noted(bss, bssid, freq)))
    ensures StoredBss(bssid, freq) in Youngest(Noted(bss, bssid, freq))
    ensures forall x :: x in Youngest(Noted(bss, bssid, freq)) && x.bssid != bssid ==> x in bss
  {
    var i := IndexOf(bss, bssid);
    var n := Noted(bss, bssid, freq);
    var y := Youngest(n);
    if i < |bss| {
      assert y[i] == StoredBss(bssid, freq);
    } else {
      assert y[|y| - 1] == StoredBss(bssid, freq);
    }
  }

  /** One successful connection reported by the client, on a given day. */
  datatype Connection = Connection(bssid: Mac, freq: nat, today: nat)

  function Expired(updatedOn: nat, today: nat): bool {
    today > updatedOn && today - updatedOn > HINT_TTL_DAYS
  }

  /** The hint file after recording a connection: an expired file is replaced, not merged. */
  function Recorded(ssid: string, file: Option<PersistedHints>, c: Connection): Option<PersistedHints> {
    var previous := if file.Some? && !Expired(file.value.updatedOn, c.today) then file else None;
    Some(Merged(ssid, previous, MacToString(c.bssid), c.freq, c.today))
  }

  function FileAfter(ssid: string, run: seq<Connection>): Option<PersistedHints> {
    if run == [] then None else Recorded(ssid, FileAfter(ssid, run[..|run| - 1]), run[|run| - 1])
  }

  /** `record_bss_on_day` with the file as a value: skipping the write loses nothing. */
  method RecordBss(ssid: string, file: Option<PersistedHints>, c: Connection) returns (file': Option<PersistedHints>)
    requires file.Some? ==> ReadFor(file.value, ssid)
    ensures file' == Recorded(ssid, file, c)
  {
    var previous := if file.Some? && !Expired(file.value.updatedOn, c.today) then file else None;
    var hints, changed := MergeBss(ssid, previous, MacToString(c.bssid), c.freq, c.today);
    file' := if changed then Some(hints) else file;
  }

  /** Over any run of connections starting without a file: at most sixteen access points, no access point twice, and the
      one just connected to is there with its frequency and reads back as its MAC. */
  lemma {:induction false} RecordsStayTidy(ssid: string, run: seq<Connection>)
    requires run != []
    ensures var c := run[|run| - 1];
            var file := FileAfter(ssid, run);
            && file.Some? && ReadFor(file.value, ssid) && file.value.updatedOn == c.today
            && Tidy(file.value.bss)
            && StoredBss(MacToString(c.bssid), c.freq) in file.value.bss
            && MacOf(MacToString(c.bssid)) == Some(c.bssid)
    decreases |run|
  {
    var c := run[|run| - 1];
    var before := run[..|run| - 1];
    var file := FileAfter(ssid, before);
    if before != [] {
      RecordsStayTidy(ssid, before);
    }
    var previous := if file.Some? && !Expired(file.value.updatedOn, c.today) then file else None;
    MergeTidy(if previous.Some? then previous.value.bss else [], MacToString(c.bssid), c.freq);
    MacRoundTrip(c.bssid);
  }

  lemma {:induction false} NotedKeeps(was: seq<StoredBss>, b: string, freq: nat)
    requires Tidy(was)
    ensures var now := Youngest(Noted(was, b, freq));
            if exists i :: 0 <= i < |was| && was[i].bssid == b then
              && |now| == |was|
              && forall i :: 0 <= i < |was| ==> now[i] == if was[i].bssid == b then StoredBss(b, freq) else was[i]
            else if |was| < 16 then now == was + [StoredBss(b, freq)]
            else now == was[1..] + [StoredBss(b, freq)]
  {
    if |was| == 16 && forall i :: 0 <= i < |was| ==> was[i].bssid != b {
      assert (was + [StoredBss(b, freq)])[1..] == was[1..] + [StoredBss(b, freq)];
    }
  }

  /** What a recorded connection makes of the file: a file older than thirty days is started over; a known access point
      keeps its place and gets the new frequency; a new one goes to the end, and the oldest goes when there are
      sixteen. */
  lemma {:induction false} RecordKeeps(ssid: string, file: PersistedHints, c: Connection)
    requires Tidy(file.bss)
    ensures var was, b := file.bss, MacToString(c.bssid);
            var now := Recorded(ssid, Some(file), c).value.bss;
            if c.today > file.updatedOn + 30 then now == [StoredBss(b, c.freq)]
            else if exists i :: 0 <= i < |was| && was[i].bssid == b then
              && |now| == |was|
              && forall i :: 0 <= i < |was| ==> now[i] == if was[i].bssid == b then StoredBss(b, c.freq) else was[i]
            else if |was| < 16 then now == was + [StoredBss(b, c.freq)]
            else now == was[1..] + [StoredBss(b, c.freq)]
  {
    hide MacToString;
    NotedKeeps([], MacToString(c.bssid), c.freq);
    NotedKeeps(file.bss, MacToString(c.bssid), c.freq);
    hide Youngest, Noted;
  }
}
