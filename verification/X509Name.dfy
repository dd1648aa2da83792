/** The printer and the parser of X.509 distinguished names. */
module X509Name {
  import opened Common

  datatype Name = Name(
    country: string,
    organization: string,
    organizationalUnit: Option<string>,
    commonName: Option<string>,
    stateOrProvince: Option<string>,
    locality: Option<string>,
    email: Option<string>)

  // ---------------------------------------------------------------- Python strings

  // The characters str.strip removes.
  predicate IsSpace(c: char) {
    var n := c as int;
    9 <= n <= 13 || 28 <= n <= 32 || n == 0x85 || n == 0xA0 || n == 0x1680 || 0x2000 <= n <= 0x200A ||
    n == 0x2028 || n == 0x2029 || n == 0x202F || n == 0x205F || n == 0x3000
  }

  function StripLeft(s: string): string {
    if s != "" && IsSpace(s[0]) then StripLeft(s[1..]) else s
  }

  function StripRight(s: string): string {
    if s != "" && IsSpace(s[|s| - 1]) then StripRight(s[..|s| - 1]) else s
  }

  function Strip(s: string): string {
    StripRight(StripLeft(s))
  }

  // s.split(","): never empty.
  function Split(s: string): (parts: seq<string>)
    ensures parts != []
  {
    if s == "" then [""]
    else
      var rest := Split(s[1..]);
      if s[0] == ',' then [""] + rest else [[s[0]] + rest[0]] + rest[1..]
  }

  // ", ".join(parts)
  function Join(parts: seq<string>): string {
    if parts == [] then ""
    else if |parts| == 1 then parts[0]
    else parts[0] + ", " + Join(parts[1..])
  }

  // The text before and after the first "=".
  function SplitEquals(s: string): (string, string)
    requires '=' in s
  {
    if s[0] == '=' then ("", s[1..])
    else
      var (k, v) := SplitEquals(s[1..]);
      ([s[0]] + k, v)
  }

  // ---------------------------------------------------------------- printing and parsing

  function ValueOf(field: Option<string>): string {
    if field.Some? then field.value else ""
  }

  datatype Pair = Pair(key: string, value: string)

  // An absent or empty part is not printed.
  function PairIf(key: string, value: string): seq<Pair> {
    if value == "" then [] else [Pair(key, value)]
  }

  // The keys in printing order, and the values printed under them.
  function Key(i: nat): string
    requires i < 7
  {
    match i case 0 => "C" case 1 => "O" case 2 => "OU" case 3 => "CN" case 4 => "ST" case 5 => "L" case _ => "E"
  }

  function ValueAt(n: Name, i: nat): string
    requires i < 7
  {
    match i
    case 0 => n.country
    case 1 => n.organization
    case 2 => ValueOf(n.organizationalUnit)
    case 3 => ValueOf(n.commonName)
    case 4 => ValueOf(n.stateOrProvince)
    case 5 => ValueOf(n.locality)
    case _ => ValueOf(n.email)
  }

  function Pairs(n: Name, count: nat): seq<Pair>
    requires count <= 7
  {
    if count == 0 then [] else Pairs(n, count - 1) + PairIf(Key(count - 1), ValueAt(n, count - 1))
  }

  function Shown(pairs: seq<Pair>): seq<string> {
    if pairs == [] then []
    else Shown(pairs[..|pairs| - 1]) + [pairs[|pairs| - 1].key + "=" + pairs[|pairs| - 1].value]
  }

  function ToString(n: Name): string {
    Join(Shown(Pairs(n, 7)))
  }

  function AddPart(components: map<string, string>, part: string): map<string, string> {
    if '=' in part then
      var stripped := Strip(part);
      if '=' in stripped then
        var (k, v) := SplitEquals(stripped);
        components[Strip(k) := Strip(v)]
      else components
    else components
  }

  function Components(parts: seq<string>): map<string, string> {
    if parts == [] then map[]
    else AddPart(Components(parts[..|parts| - 1]), parts[|parts| - 1])
  }

  function Get(m: map<string, string>, k: string): Option<string> {
    if k in m then Some(m[k]) else None
  }

  function FromDict(m: map<string, string>): Name {
    Name(ValueOf(Get(m, Key(0))), ValueOf(Get(m, Key(1))),
         Get(m, Key(2)), Get(m, Key(3)), Get(m, Key(4)), Get(m, Key(5)), Get(m, Key(6)))
  }

  function FromString(s: string): Name {
    FromDict(Components(Split(s)))
  }

  // The printer as it is written, appending to a list of parts.
  method Print(n: Name) returns (s: string)
    ensures s == ToString(n)
  {
    var parts := AppendPart(n, 0, "C", n.country, []);
    parts := AppendPart(n, 1, "O", n.organization, parts);
    parts := AppendPart(n, 2, "OU", ValueOf(n.organizationalUnit), parts);
    parts := AppendPart(n, 3, "CN", ValueOf(n.commonName), parts);
    parts := AppendPart(n, 4, "ST", ValueOf(n.stateOrProvince), parts);
    parts := AppendPart(n, 5, "L", ValueOf(n.locality), parts);
    parts := AppendPart(n, 6, "E", ValueOf(n.email), parts);
    s := Join(parts);
  }

  // One of the seven conditional appends.
  method AppendPart(ghost n: Name, ghost i: nat, key: string, value: string, parts: seq<string>)
    returns (longer: seq<string>)
    requires i < 7 && key == Key(i) && value == ValueAt(n, i) && parts == Shown(Pairs(n, i))
    ensures longer == Shown(Pairs(n, i + 1))
  {
    longer := parts;
    ghost var before := Pairs(n, i);
    if value != "" {
      longer := parts + [key + "=" + value];
      assert (before + [Pair(key, value)])[..|before|] == before;
    } else {
      assert before + [] == before;
    }
  }

  // The parser as it is written, filling a dictionary in a loop.
  method Parse(s: string) returns (n: Name)
    ensures n == FromString(s)
  {
    var components: map<string, string> := map[];
    var parts := Split(s);
    for i := 0 to |parts|
      invariant components == Components(parts[..i])
    {
      assert parts[..i + 1][..i] == parts[..i];
      var part := parts[i];
      if '=' in part {
        StripKeepsEquals(part);
        var (key, value) := SplitEquals(Strip(part));
        components := components[Strip(key) := Strip(value)];
      }
    }
    assert parts[..|parts|] == parts;
    n := Name(
      if "C" in components then components["C"] else "",
      if "O" in components then components["O"] else "",
      if "OU" in components then Some(components["OU"]) else None,
      if "CN" in components then Some(components["CN"]) else None,
      if "ST" in components then Some(components["ST"]) else None,
      if "L" in components then Some(components["L"]) else None,
      if "E" in components then Some(components["E"]) else None);
  }

  // ---------------------------------------------------------------- stripping and splitting

  predicate Trimmed(v: string) {
    v == "" || (!IsSpace(v[0]) && !IsSpace(v[|v| - 1]))
  }

  lemma {:induction false} StripLeftFacts(s: string)
    ensures var t := StripLeft(s);
            (t == "" || !IsSpace(t[0])) && (forall c :: !IsSpace(c) ==> (c in t <==> c in s)) &&
            (forall c :: c in t ==> c in s)
  {
    if s != "" && IsSpace(s[0]) {
      StripLeftFacts(s[1..]);
      assert s == [s[0]] + s[1..];
    }
  }

  lemma {:induction false} StripRightFacts(s: string)
    ensures var t := StripRight(s);
            t <= s && (t == "" || !IsSpace(t[|t| - 1])) && (forall c :: !IsSpace(c) ==> (c in t <==> c in s))
  {
    if s != "" && IsSpace(s[|s| - 1]) {
      StripRightFacts(s[..|s| - 1]);
      assert s == s[..|s| - 1] + [s[|s| - 1]];
    }
  }

  lemma StripTrims(s: string)
    ensures Trimmed(Strip(s)) && forall c :: c in Strip(s) ==> c in s
  {
    StripLeftFacts(s);
    StripRightFacts(StripLeft(s));
  }

  lemma StripKeepsEquals(s: string)
    ensures '=' in Strip(s) <==> '=' in s
  {
    StripLeftFacts(s);
    StripRightFacts(StripLeft(s));
  }

  lemma {:induction false} TrimmedStays(v: string)
    requires Trimmed(v)
    ensures Strip(v) == v && Strip(" " + v) == v
  {
    assert (" " + v)[1..] == v;
  }

  lemma {:induction false} SplitNoComma(s: string)
    ensures forall i :: 0 <= i < |Split(s)| ==> ',' !in Split(s)[i]
    ensures ',' !in s ==> Split(s) == [s]
  {
    if s != "" {
      SplitNoComma(s[1..]);
      assert s == [s[0]] + s[1..];
    }
  }

  // Splitting at the comma that follows a comma-free text.
  lemma {:induction false} SplitAtComma(head: string, tail: string)
    requires ',' !in head
    ensures Split(head + "," + tail) == [head] + Split(tail)
  {
    var s := head + "," + tail;
    if head == "" {
      assert s[0] == ',' && s[1..] == tail;
    } else {
      assert s[1..] == head[1..] + "," + tail;
      SplitAtComma(head[1..], tail);
      assert head == [head[0]] + head[1..];
    }
  }

  function Spaced(parts: seq<string>): seq<string> {
    if parts == [] then [] else [" " + parts[0]] + Spaced(parts[1..])
  }

  lemma {:induction false} JoinMore(parts: seq<string>)
    requires |parts| > 1
    ensures Join(parts) == parts[0] + "," + (" " + Join(parts[1..]))
    ensures " " + Join(parts) == (" " + parts[0]) + "," + (" " + Join(parts[1..]))
  {
    Regroup(parts[0], Join(parts[1..]));
  }

  lemma {:induction false} Regroup(head: string, tail: string)
    ensures head + ", " + tail == head + "," + (" " + tail)
    ensures " " + (head + ", " + tail) == (" " + head) + "," + (" " + tail)
  {
    var comma, space := [','], [' '];
    assert ", " == comma + space;
  }

  lemma {:induction false} SplitSpaced(parts: seq<string>)
    requires parts != [] && forall p :: p in parts ==> ',' !in p
    ensures Split(Join(parts)) == [parts[0]] + Spaced(parts[1..])
    ensures Split(" " + Join(parts)) == Spaced(parts)
  {
    if |parts| == 1 {
      SplitNoComma(parts[0]);
      SplitNoComma(" " + parts[0]);
    } else {
      SplitSpaced(parts[1..]);
      JoinMore(parts);
      SplitAtComma(parts[0], " " + Join(parts[1..]));
      SplitAtComma(" " + parts[0], " " + Join(parts[1..]));
    }
  }

  lemma {:induction false} SplitEqualsAt(key: string, value: string)
    requires '=' !in key
    ensures SplitEquals(key + "=" + value) == (key, value)
  {
    var s := key + "=" + value;
    if key == "" {
      assert s[1..] == value;
    } else {
      assert s[1..] == key[1..] + "=" + value;
      SplitEqualsAt(key[1..], value);
      assert key == [key[0]] + key[1..];
    }
  }

  // ---------------------------------------------------------------- reading back what was printed

  predicate PlainKey(k: string) {
    k != "" && Trimmed(k) && '=' !in k && ',' !in k
  }

  predicate PlainValue(v: string) {
    Trimmed(v) && ',' !in v
  }

  function Fold(pairs: seq<Pair>): map<string, string> {
    if pairs == [] then map[]
    else Fold(pairs[..|pairs| - 1])[pairs[|pairs| - 1].key := pairs[|pairs| - 1].value]
  }

  predicate PlainPairs(pairs: seq<Pair>) {
    forall i :: 0 <= i < |pairs| ==> PlainKey(pairs[i].key) && PlainValue(pairs[i].value) && pairs[i].value != ""
  }

  lemma AddShown(components: map<string, string>, p: Pair)
    requires PlainKey(p.key) && PlainValue(p.value) && p.value != ""
    ensures var shown := p.key + "=" + p.value;
            AddPart(components, shown) == components[p.key := p.value] &&
            AddPart(components, " " + shown) == components[p.key := p.value]
  {
    var shown := p.key + "=" + p.value;
    assert shown[|p.key|] == '=' && (" " + shown)[|p.key| + 1] == '=';
    assert shown[0] == p.key[0] && shown[|shown| - 1] == p.value[|p.value| - 1];
    TrimmedStays(shown);
    SplitEqualsAt(p.key, p.value);
    TrimmedStays(p.key);
    TrimmedStays(p.value);
  }

  // Parts read back in order, with or without the space the joiner puts before them.
  lemma {:induction false} ComponentsOfShown(pairs: seq<Pair>, parts: seq<string>)
    requires PlainPairs(pairs) && |parts| == |pairs|
    requires forall i :: 0 <= i < |pairs| ==>
               parts[i] == pairs[i].key + "=" + pairs[i].value ||
               parts[i] == " " + (pairs[i].key + "=" + pairs[i].value)
    ensures Components(parts) == Fold(pairs)
  {
    if pairs != [] {
      var n := |pairs| - 1;
      ComponentsOfShown(pairs[..n], parts[..n]);
      AddShown(Fold(pairs[..n]), pairs[n]);
    }
  }

  lemma {:induction false} ShownAt(pairs: seq<Pair>)
    ensures |Shown(pairs)| == |pairs|
    ensures forall i :: 0 <= i < |pairs| ==> Shown(pairs)[i] == pairs[i].key + "=" + pairs[i].value
  {
    if pairs != [] { ShownAt(pairs[..|pairs| - 1]); }
  }

  lemma {:induction false} SpacedAt(parts: seq<string>)
    ensures |Spaced(parts)| == |parts| && forall i :: 0 <= i < |parts| ==> Spaced(parts)[i] == " " + parts[i]
  {
    if parts != [] { SpacedAt(parts[1..]); }
  }

  lemma PairsReadBack(pairs: seq<Pair>)
    requires PlainPairs(pairs)
    ensures Components(Split(Join(Shown(pairs)))) == Fold(pairs)
  {
    if pairs == [] {
      assert Components([""]) == AddPart(Components([""][..0]), "");
    } else {
      var shown := Shown(pairs);
      ShownAt(pairs);
      forall p | p in shown ensures ',' !in p {
        var i :| 0 <= i < |shown| && shown[i] == p;
      }
      SplitSpaced(shown);
      SpacedAt(shown[1..]);
      ComponentsOfShown(pairs, [shown[0]] + Spaced(shown[1..]));
    }
  }

  // ---------------------------------------------------------------- the seven fields

  lemma {:induction false} FoldConcat(a: seq<Pair>, b: seq<Pair>)
    ensures Fold(a + b) == Fold(a) + Fold(b)
  {
    if b == [] {
      assert a + b == a;
    } else {
      assert (a + b)[..|a + b| - 1] == a + b[..|b| - 1];
      FoldConcat(a, b[..|b| - 1]);
    }
  }

  function Single(key: string, value: string): map<string, string> {
    if value == "" then map[] else map[key := value]
  }

  lemma FoldPair(pairs: seq<Pair>, key: string, value: string)
    ensures Fold(pairs + PairIf(key, value)) == Fold(pairs) + Single(key, value)
  {
    FoldConcat(pairs, PairIf(key, value));
    assert Fold([]) == map[];
    if value != "" { assert [Pair(key, value)][..0] == []; }
  }

  function NormalField(f: Option<string>): Option<string> {
    if f == Some("") then None else f
  }

  // An empty optional part comes back as an absent one.
  function Normal(n: Name): Name {
    Name(n.country, n.organization, NormalField(n.organizationalUnit), NormalField(n.commonName),
         NormalField(n.stateOrProvince), NormalField(n.locality), NormalField(n.email))
  }

  predicate PlainField(f: Option<string>) {
    f.Some? ==> PlainValue(f.value)
  }

  predicate PlainName(n: Name) {
    PlainValue(n.country) && PlainValue(n.organization) && PlainField(n.organizationalUnit) &&
        PlainField(n.commonName) &&
    PlainField(n.stateOrProvince) && PlainField(n.locality) && PlainField(n.email)
  }

  lemma {:induction false} KeysDiffer(i: nat, j: nat)
    requires i < 7 && j < 7 && i != j
    ensures Key(i) != Key(j)
  {
    if |Key(i)| == |Key(j)| {
      assert Key(i)[0] != Key(j)[0];
    }
  }

  function Merged(n: Name, count: nat): map<string, string>
    requires count <= 7
  {
    if count == 0 then map[] else Merged(n, count - 1) + Single(Key(count - 1), ValueAt(n, count - 1))
  }

  lemma {:induction false} FoldIsMerged(n: Name, count: nat)
    requires count <= 7
    ensures Fold(Pairs(n, count)) == Merged(n, count)
  {
    if count > 0 {
      FoldIsMerged(n, count - 1);
      FoldPair(Pairs(n, count - 1), Key(count - 1), ValueAt(n, count - 1));
    }
  }

  lemma {:induction false} MergedLacks(n: Name, count: nat, i: nat)
    requires count <= i < 7
    ensures Key(i) !in Merged(n, count)
  {
    if count > 0 {
      MergedLacks(n, count - 1, i);
      KeysDiffer(count - 1, i);
    }
  }

  lemma {:induction false} MergedAt(n: Name, count: nat, i: nat)
    requires i < count <= 7
    ensures Get(Merged(n, count), Key(i)) == Present(ValueAt(n, i))
  {
    if i == count - 1 {
      MergedLacks(n, i, i);
    } else {
      MergedAt(n, count - 1, i);
      KeysDiffer(count - 1, i);
    }
  }

  function Present(v: string): Option<string> {
    if v == "" then None else Some(v)
  }

  lemma FromDictOf(m: map<string, string>, n: Name)
    ensures (forall i {:trigger Key(i)} :: 0 <= i < 7 ==> Get(m, Key(i)) == Present(ValueAt(n, i))) ==>
      FromDict(m) == Normal(n)
  {
  }

  lemma FieldsReadBack(n: Name)
    ensures FromDict(Fold(Pairs(n, 7))) == Normal(n)
  {
    FoldIsMerged(n, 7);
    forall i | 0 <= i < 7 ensures Get(Merged(n, 7), Key(i)) == Present(ValueAt(n, i)) {
      MergedAt(n, 7, i);
    }
    FromDictOf(Merged(n, 7), n);
  }

  lemma {:induction false} PlainKeys(i: nat)
    requires i < 7
    ensures PlainKey(Key(i))
  {
    assert |Key(i)| <= 2 && 'A' <= Key(i)[0] <= 'Z' && 'A' <= Key(i)[|Key(i)| - 1] <= 'Z';
  }

  lemma {:induction false} PlainNamePairs(n: Name, count: nat)
    requires PlainName(n) && count <= 7
    ensures PlainPairs(Pairs(n, count))
  {
    if count > 0 {
      PlainNamePairs(n, count - 1);
      PlainKeys(count - 1);
    }
  }

  // A name of plain values, whatever "=" signs they hold, reads back as itself but for empty optional parts.
  lemma {:induction false} PlainNameReadsBack(n: Name)
    requires PlainName(n)
    ensures FromString(ToString(n)) == Normal(n)
  {
    PlainNamePairs(n, 7);
    PairsReadBack(Pairs(n, 7));
    FieldsReadBack(n);
  }

  // ---------------------------------------------------------------- exactly when the round trip succeeds

  lemma {:induction false} EqualsParts(s: string)
    requires '=' in s
    ensures var (k, v) := SplitEquals(s); forall c :: c in v ==> c in s
  {
    if s[0] != '=' {
      EqualsParts(s[1..]);
      assert forall c :: c in s[1..] ==> c in s;
    }
  }

  lemma {:induction false} ComponentsArePlain(parts: seq<string>)
    requires forall i :: 0 <= i < |parts| ==> ',' !in parts[i]
    ensures forall k :: k in Components(parts) ==> PlainValue(Components(parts)[k])
  {
    if parts != [] {
      var part := parts[|parts| - 1];
      ComponentsArePlain(parts[..|parts| - 1]);
      if '=' in part && '=' in Strip(part) {
        StripTrims(part);
        EqualsParts(Strip(part));
        StripTrims(SplitEquals(Strip(part)).1);
      }
    }
  }

  // Whatever is parsed has plain values.
  lemma ParsedIsPlain(s: string)
    ensures PlainName(FromString(s))
  {
    SplitNoComma(s);
    ComponentsArePlain(Split(s));
  }

  // No comma, no surrounding white space, and no optional part that is present but empty.
  predicate Printable(n: Name) {
    PlainName(n) && Normal(n) == n
  }

  // The round trip succeeds exactly for the printable names.
  lemma {:induction false} RoundTripIff(n: Name)
    ensures FromString(ToString(n)) == n <==> Printable(n)
  {
    if PlainName(n) {
      PlainNameReadsBack(n);
    } else {
      ParsedIsPlain(ToString(n));
    }
  }

  // Parsing is a projection: what was parsed once, printed and parsed again is the same up to empty parts.
  lemma {:induction false} ParsePrintParse(s: string)
    ensures FromString(ToString(FromString(s))) == Normal(FromString(s))
  {
    ParsedIsPlain(s);
    PlainNameReadsBack(FromString(s));
  }
}
