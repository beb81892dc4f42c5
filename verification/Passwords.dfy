/** Password hashes in PHC form: printing, parsing and verification (services/api/internal/auth/password.go). */
module Passwords {
  import opened Wrappers
  import opened Base64
  import opened Texts

  const ARGON_VERSION := 19
  const ARGON_TIME := 3
  const ARGON_MEMORY := 64 * 1024
  const ARGON_THREADS := 4
  const ARGON_KEY_LEN := 32
  const ARGON_SALT_LEN := 16

  const UINT32 := 0x1_0000_0000
  const UINT8 := 0x100

  datatype Fields = Fields(version: nat, memory: nat, iterations: nat, threads: nat, salt: seq<Byte>, key: seq<Byte>)

  /** Argon2id, uninterpreted: password, salt, iterations, memory, threads and key length to key. */
  type Kdf = (seq<Byte>, seq<Byte>, nat, nat, nat, nat) -> seq<Byte>

  // ---- The written form ----

  /** The pieces of an encoded hash as text. */
  datatype Layout = Layout(prefix: string, version: string, params: seq<string>, salt: string, key: string)

  function Write(l: Layout): string
    requires |l.params| >= 1
  {
    Join([l.prefix, "argon2id", "v=" + l.version, Join(l.params, ','), l.salt, l.key], '$')
  }

  /** The layout says f: three parameters m, t and p in some order, numbers within their widths, base64 as decoded. */
  ghost predicate Says(l: Layout, f: Fields)
  {
    && '$' !in l.prefix && '$' !in l.version && '$' !in l.salt && '$' !in l.key
    && ParseUint(l.version, UINT32) == Some(f.version)
    && |l.params| == 3
    && Holds(l.params, "m=", f.memory, UINT32)
    && Holds(l.params, "t=", f.iterations, UINT32)
    && Holds(l.params, "p=", f.threads, UINT8)
    && Decode(RAW_STD, l.salt) == Some(f.salt)
    && Decode(RAW_STD, l.key) == Some(f.key)
  }

  ghost predicate Holds(params: seq<string>, marker: string, value: nat, bound: nat)
  {
    exists text :: marker + text in params && ParseUint(text, bound) == Some(value)
  }

  ghost predicate Written(encoded: string, f: Fields)
  {
    exists l :: Says(l, f) && encoded == Write(l)
  }

  function Parameters(f: Fields): seq<string>
  {
    ["m=" + Decimal(f.memory), "t=" + Decimal(f.iterations), "p=" + Decimal(f.threads)]
  }

  function LayoutOf(f: Fields, prefix: string, params: seq<string>): Layout
  {
    Layout(prefix, Decimal(f.version), params, Encode(RAW_STD, f.salt), Encode(RAW_STD, f.key))
  }

  // ---- The parser ----

  /** strings.SplitN(parameter, "=", 2) with two parts. */
  function Assignment(parameter: string): (r: Option<(string, string)>)
  {
    if parameter == "" then None
    else if parameter[0] == '=' then Some(("", parameter[1..]))
    else
      var rest := Assignment(parameter[1..]);
      if rest == None then None else Some(([parameter[0]] + rest.value.0, rest.value.1))
  }

  predicate Named(parameter: string)
  {
    var a := Assignment(parameter); a.Some? && (a.value.0 == "m" || a.value.0 == "t" || a.value.0 == "p")
  }

  function Name(parameter: string): string
  {
    var a := Assignment(parameter); if a.Some? then a.value.0 else ""
  }

  function Text(parameter: string): string
  {
    var a := Assignment(parameter); if a.Some? then a.value.1 else ""
  }

  predicate WellNamed(params: seq<string>)
  {
    && (forall i :: 0 <= i < |params| ==> Named(params[i]))
    && (forall i, j :: 0 <= i < j < |params| ==> Name(params[i]) != Name(params[j]))
  }

  function Lookup(params: seq<string>, name: string): string
  {
    if params == [] then ""
    else if Named(params[0]) && Name(params[0]) == name then Text(params[0])
    else Lookup(params[1..], name)
  }

  function Parse(encoded: string): Option<Fields>
  {
    var parts := Split(encoded, '$');
    if |parts| != 6 || parts[1] != "argon2id" || !("v=" <= parts[2]) then None
    else
      var params := Split(parts[3], ',');
      if |params| != 3 || !WellNamed(params) then None
      else
        var version := ParseUint(parts[2][2..], UINT32);
        var memory := ParseUint(Lookup(params, "m"), UINT32);
        var iterations := ParseUint(Lookup(params, "t"), UINT32);
        var threads := ParseUint(Lookup(params, "p"), UINT8);
        var salt := Decode(RAW_STD, parts[4]);
        var key := Decode(RAW_STD, parts[5]);
        if version == None || memory == None || iterations == None || threads == None || salt == None || key == None
          then None
        else Some(Fields(version.value, memory.value, iterations.value, threads.value, salt.value, key.value))
  }

  lemma {:induction false} LookupFinds(params: seq<string>, k: nat)
    requires k < |params| && WellNamed(params)
    ensures Lookup(params, Name(params[k])) == Text(params[k])
  {
    if k > 0 {
      LookupFinds(params[1..], k - 1);
      assert Name(params[0]) != Name(params[k]);
    }
  }

  /** An assignment splits at its first equals sign and nowhere else. */
  lemma {:induction false} AssignmentExactly(parameter: string, name: string, text: string)
    requires '=' !in name
    ensures Assignment(parameter) == Some((name, text)) <==> parameter == name + "=" + text
  {
    if parameter != "" {
      if name == "" {
        assert parameter[0] == '=' ==> parameter == "=" + parameter[1..];
      } else if parameter[0] == name[0] {
        AssignmentExactly(parameter[1..], name[1..], text);
        assert parameter == [parameter[0]] + parameter[1..];
        assert name == [name[0]] + name[1..];
        assert (name + "=" + text)[1..] == name[1..] + "=" + text;
      } else {
        assert (name + "=" + text)[0] == name[0];
      }
    }
  }

  lemma OneParameter(parameter: string, name: string, marker: string, text: string)
    requires name == "m" || name == "t" || name == "p"
    requires marker == name + "=" && parameter == marker + text
    ensures Named(parameter) && Name(parameter) == name && Text(parameter) == text
  {
    AssignmentExactly(parameter, name, text);
    hide Assignment;
  }

  /** Three parameters that hold m, t and p are well named, whatever their order, and are looked up by name. */
  lemma HeldParameters(params: seq<string>, m: string, t: string, p: string)
    requires |params| == 3 && "m=" + m in params && "t=" + t in params && "p=" + p in params
    ensures WellNamed(params)
    ensures Lookup(params, "m") == m && Lookup(params, "t") == t && Lookup(params, "p") == p
    ensures forall i :: 0 <= i < 3 ==> params[i] == "m=" + m || params[i] == "t=" + t || params[i] == "p=" + p
  {
    hide Named, Name, Text, Assignment, Lookup;
    var a :| 0 <= a < 3 && params[a] == "m=" + m;
    var b :| 0 <= b < 3 && params[b] == "t=" + t;
    var c :| 0 <= c < 3 && params[c] == "p=" + p;
    OneParameter(params[a], "m", "m=", m);
    OneParameter(params[b], "t", "t=", t);
    OneParameter(params[c], "p", "p=", p);
    assert "m" != "t" && "m" != "p" && "t" != "p";
    assert a != b && b != c && a != c;
    LookupFinds(params, a);
    LookupFinds(params, b);
    LookupFinds(params, c);
  }

  /** Three well-named parameters are an m, a t and a p. */
  lemma WellNamedHolds(params: seq<string>, name: string, marker: string)
    requires |params| == 3 && WellNamed(params) && (name == "m" || name == "t" || name == "p") && marker == name + "="
    ensures marker + Lookup(params, name) in params
  {
    hide Assignment, Lookup;
    assert Named(params[0]) && Named(params[1]) && Named(params[2]);
    assert Name(params[0]) != Name(params[1]) && Name(params[0]) != Name(params[2])
      && Name(params[1]) != Name(params[2]);
    var k :| 0 <= k < 3 && Name(params[k]) == name;
    LookupFinds(params, k);
    AssignmentExactly(params[k], name, Text(params[k]));
  }

  lemma NumberCharacters(text: string, bound: nat)
    requires ParseUint(text, bound).Some?
    ensures '$' !in text && ',' !in text
  {
  }

  /** A layout that says f splits back into its pieces. */
  lemma WrittenSplits(l: Layout, f: Fields)
    requires Says(l, f)
    ensures Split(Write(l), '$') == [l.prefix, "argon2id", "v=" + l.version, Join(l.params, ','), l.salt, l.key]
    ensures Split(Join(l.params, ','), ',') == l.params
    ensures WellNamed(l.params)
    ensures ParseUint(Lookup(l.params, "m"), UINT32) == Some(f.memory)
    ensures ParseUint(Lookup(l.params, "t"), UINT32) == Some(f.iterations)
    ensures ParseUint(Lookup(l.params, "p"), UINT8) == Some(f.threads)
  {
    hide ParseUint, Split, Join, Lookup, WellNamed, Decode;
    var m :| "m=" + m in l.params && ParseUint(m, UINT32) == Some(f.memory);
    var t :| "t=" + t in l.params && ParseUint(t, UINT32) == Some(f.iterations);
    var p :| "p=" + p in l.params && ParseUint(p, UINT8) == Some(f.threads);
    HeldParameters(l.params, m, t, p);
    NumberCharacters(m, UINT32);
    NumberCharacters(t, UINT32);
    NumberCharacters(p, UINT8);
    assert Without(l.params, ',') && Without(l.params, '$');
    SplitJoin(l.params, ',');
    JoinWithout(l.params, ',', '$');
    SplitJoin([l.prefix, "argon2id", "v=" + l.version, Join(l.params, ','), l.salt, l.key], '$');
  }

  /** The parser accepts exactly the written forms: six parts, three parameters in any order, numbers within width. */
  lemma ParseExactly(encoded: string, f: Fields)
    ensures Parse(encoded) == Some(f) <==> Written(encoded, f)
  {
    hide ParseUint, Split, Join, Lookup, WellNamed, Decode;
    if Parse(encoded) == Some(f) {
      var parts := Split(encoded, '$');
      var params := Split(parts[3], ',');
      JoinSplit(encoded, '$');
      JoinSplit(parts[3], ',');
      WellNamedHolds(params, "m", "m=");
      WellNamedHolds(params, "t", "t=");
      WellNamedHolds(params, "p", "p=");
      var l := Layout(parts[0], parts[2][2..], params, parts[4], parts[5]);
      assert "v=" + l.version == parts[2];
      assert parts == [l.prefix, "argon2id", "v=" + l.version, Join(l.params, ','), l.salt, l.key];
      assert Holds(params, "m=", f.memory, UINT32) && Holds(params, "t=", f.iterations, UINT32)
        && Holds(params, "p=", f.threads, UINT8);
      assert Says(l, f);
    }
    if l :| Says(l, f) && encoded == Write(l) {
      WrittenSplits(l, f);
      assert ("v=" + l.version)[2..] == l.version;
    }
  }

  /** What is printed is read back, in every order of the three parameters and behind every first part. */
  lemma RoundTrip(prefix: string, f: Fields, params: seq<string>)
    requires '$' !in prefix
    requires f.version < UINT32 && f.memory < UINT32 && f.iterations < UINT32 && f.threads < UINT8
    requires multiset(params) == multiset(Parameters(f))
    ensures Parse(Write(LayoutOf(f, prefix, params))) == Some(f)
  {
    hide ParseUint, Split, Join, Decode, Encode, Decimal, Parse;
    ParseInverts(f.version, UINT32);
    ParseInverts(f.memory, UINT32);
    ParseInverts(f.iterations, UINT32);
    ParseInverts(f.threads, UINT8);
    NumberCharacters(Decimal(f.version), UINT32);
    DecodeInverts(RAW_STD, f.salt);
    DecodeInverts(RAW_STD, f.key);
    EncodeCharacters(RAW_STD, f.salt);
    EncodeCharacters(RAW_STD, f.key);
    assert |params| == |multiset(params)| == 3;
    assert forall x :: x in Parameters(f) ==> x in multiset(params);
    assert Parameters(f)[0] in params && Parameters(f)[1] in params && Parameters(f)[2] in params;
    ParseExactly(Write(LayoutOf(f, prefix, params)), f);
  }

  /** The parser never looks at what stands before the first dollar sign. */
  lemma FirstPartIgnored(prefix: string, other: string, rest: string)
    requires '$' !in prefix && '$' !in other
    ensures Parse(prefix + "$" + rest) == Parse(other + "$" + rest)
  {
    SplitHead(prefix, rest, '$');
    SplitHead(other, rest, '$');
    assert prefix + ['$'] + rest == prefix + "$" + rest && other + ['$'] + rest == other + "$" + rest;
    hide Split, ParseUint, Decode, WellNamed, Lookup;
    var a, b := Split(prefix + "$" + rest, '$'), Split(other + "$" + rest, '$');
    assert a[1..] == Split(rest, '$') == b[1..];
    assert forall i :: 1 <= i < |a| ==> a[i] == a[1..][i - 1] == b[i];
  }

  // ---- The operations ----

  lemma NamedParts(parameter: string)
    ensures var a := Assignment(parameter);
            && (Named(parameter) <==> a.Some? && (a.value.0 == "m" || a.value.0 == "t" || a.value.0 == "p"))
            && (a.Some? ==> Name(parameter) == a.value.0 && Text(parameter) == a.value.1)
  {
    hide Assignment;
  }

  /** The loop of the parser that fills the map, refusing an unknown or repeated name. */
  method ReadParameters(params: seq<string>) returns (r: Option<map<string, string>>)
    requires |params| == 3
    ensures r.Some? <==> WellNamed(params)
    ensures r.Some? ==> forall name :: name == "m" || name == "t" || name == "p" ==>
                                         name in r.value && r.value[name] == Lookup(params, name)
  {
    hide Lookup, Assignment, Named, Name, Text;
    var values: map<string, string> := map[];
    for i := 0 to |params|
      invariant forall k :: 0 <= k < i ==> Named(params[k]) && Name(params[k]) in values
      invariant forall k :: 0 <= k < i ==> values[Name(params[k])] == Text(params[k])
      invariant forall name :: name in values ==> exists k :: 0 <= k < i && Name(params[k]) == name
      invariant forall j, k :: 0 <= j < k < i ==> Name(params[j]) != Name(params[k])
    {
      var pair := Assignment(params[i]);
      NamedParts(params[i]);
      if pair == None || (pair.value.0 != "m" && pair.value.0 != "t" && pair.value.0 != "p") {
        return None;
      }
      if pair.value.0 in values {
        return None;
      }
      values := values[pair.value.0 := pair.value.1];
    }
    assert WellNamed(params);
    AllLookups(params, values);
    return Some(values);
  }

  /** Fill a map with the three parameters, then read the numbers out of it. */
  method ParsePHC(encoded: string) returns (r: Option<Fields>)
    ensures r == Parse(encoded)
  {
    hide ParseUint, Split, Lookup, Decode, WellNamed;
    var parts := Split(encoded, '$');
    if |parts| != 6 || parts[1] != "argon2id" || !("v=" <= parts[2]) {
      return None;
    }
    var version := ParseUint(parts[2][2..], UINT32);
    if version == None {
      return None;
    }
    var params := Split(parts[3], ',');
    if |params| != 3 {
      return None;
    }
    var values := ReadParameters(params);
    if values == None {
      return None;
    }
    var memory := ParseUint(values.value["m"], UINT32);
    var iterations := ParseUint(values.value["t"], UINT32);
    var threads := ParseUint(values.value["p"], UINT8);
    var salt, key := Decode(RAW_STD, parts[4]), Decode(RAW_STD, parts[5]);
    if memory == None || iterations == None || threads == None || salt == None || key == None {
      return None;
    }
    return Some(Fields(version.value, memory.value, iterations.value, threads.value, salt.value, key.value));
  }

  lemma AllLookups(params: seq<string>, values: map<string, string>)
    requires |params| == 3 && WellNamed(params)
    requires forall k :: 0 <= k < 3 ==> Name(params[k]) in values && values[Name(params[k])] == Text(params[k])
    ensures forall name :: name == "m" || name == "t" || name == "p" ==>
                             name in values && values[name] == Lookup(params, name)
  {
    hide Assignment, Lookup;
    assert Named(params[0]) && Named(params[1]) && Named(params[2]);
    assert Name(params[0]) != Name(params[1]) && Name(params[0]) != Name(params[2])
      && Name(params[1]) != Name(params[2]);
    LookupFinds(params, 0);
    LookupFinds(params, 1);
    LookupFinds(params, 2);
  }

  lemma NumbersWritten()
    ensures Decimal(3) == "3" && Decimal(4) == "4" && Decimal(19) == "19" && Decimal(65536) == "65536"
  {
    assert Decimal(6) == "6" && Decimal(65) == "65" && Decimal(655) == "655" && Decimal(6553) == "6553";
  }

  /** Six parts between dollar signs, three parameters between commas. */
  lemma WriteText(l: Layout)
    requires |l.params| == 3
    ensures Write(l) == l.prefix + "$argon2id$v=" + l.version + "$" + l.params[0] + "," + l.params[1] + ","
                        + l.params[2] + "$" + l.salt + "$" + l.key
  {
    var p, params := l.params, Join(l.params, ',');
    JoinThree(p);
    hide Join;
    JoinSix(l.prefix, "argon2id", "v=" + l.version, params, l.salt, l.key);
    Opening(l.prefix, l.version);
    Spread(l.prefix + "$argon2id$v=" + l.version + "$", p[0], p[1], p[2]);
  }

  lemma JoinThree(p: seq<string>)
    requires |p| == 3
    ensures Join(p, ',') == p[0] + "," + p[1] + "," + p[2]
  {
    assert Join(p[2..], ',') == p[2] && Join(p[1..], ',') == p[1] + "," + p[2] by {
      assert p[1..][1..] == p[2..];
    }
  }

  lemma Opening(prefix: string, version: string)
    ensures prefix + "$" + "argon2id" + "$" + ("v=" + version) == prefix + "$argon2id$v=" + version
  {
    assert "$" + "argon2id" + "$" + "v=" == "$argon2id$v=";
    assert prefix + "$" + "argon2id" + "$" + ("v=" + version) == prefix + ("$" + "argon2id" + "$" + "v=") + version;
  }

  lemma Spread(head: string, a: string, b: string, c: string)
    ensures head + (a + "," + b + "," + c) == head + a + "," + b + "," + c
  {
  }

  lemma JoinSix(a: string, b: string, c: string, d: string, e: string, f: string)
    ensures Join([a, b, c, d, e, f], '$') == a + "$" + b + "$" + c + "$" + d + "$" + e + "$" + f
  {
    assert Join([f], '$') == f;
    assert Join([e, f], '$') == e + "$" + f by { assert [e, f][1..] == [f]; }
    assert Join([d, e, f], '$') == d + "$" + e + "$" + f by { assert [d, e, f][1..] == [e, f]; }
    assert Join([c, d, e, f], '$') == c + "$" + d + "$" + e + "$" + f by { assert [c, d, e, f][1..] == [d, e, f]; }
    assert Join([b, c, d, e, f], '$') == b + "$" + c + "$" + d + "$" + e + "$" + f by {
      assert [b, c, d, e, f][1..] == [c, d, e, f];
    }
    assert [a, b, c, d, e, f][1..] == [b, c, d, e, f];
  }

  /** None is a password of refused length or a failed read of the random source. */
  method HashPassword(kdf: Kdf, password: seq<Byte>, random: Option<seq<Byte>>) returns (r: Option<string>)
    requires random.Some? ==> |random.value| == ARGON_SALT_LEN
    ensures r.Some? <==> 12 <= |password| <= 1024 && random.Some?
    ensures r.Some? ==> Parse(r.value) == Some(Hashed(kdf, password, random.value))
    ensures r.Some? ==> r.value == "$argon2id$v=19$m=65536,t=3,p=4$" + Encode(RAW_STD, random.value) + "$"
                                   + Encode(RAW_STD, kdf(password, random.value, 3, 65536, 4, 32))
  {
    if |password| < 12 || |password| > 1024 || random == None {
      return None;
    }
    var f := Hashed(kdf, password, random.value);
    RoundTrip("", f, Parameters(f));
    HashedText(kdf, password, random.value);
    hide Write, Parse;
    return Some(Write(LayoutOf(f, "", Parameters(f))));
  }

  /** What a fresh hash of a password says. */
  function Hashed(kdf: Kdf, password: seq<Byte>, salt: seq<Byte>): Fields
  {
    Fields(ARGON_VERSION, ARGON_MEMORY, ARGON_TIME, ARGON_THREADS, salt,
           kdf(password, salt, ARGON_TIME, ARGON_MEMORY, ARGON_THREADS, ARGON_KEY_LEN))
  }

  lemma HashedText(kdf: Kdf, password: seq<Byte>, salt: seq<Byte>)
    ensures var f := Hashed(kdf, password, salt);
            Write(LayoutOf(f, "", Parameters(f))) ==
            "$argon2id$v=19$m=65536,t=3,p=4$" + Encode(RAW_STD, salt) + "$"
            + Encode(RAW_STD, kdf(password, salt, 3, 65536, 4, 32))
  {
    var f := Hashed(kdf, password, salt);
    var l := LayoutOf(f, "", Parameters(f));
    hide Write, Encode;
    WriteText(l);
    NumbersWritten();
    hide Decimal;
    HeadWritten();
  }

  lemma HeadWritten()
    ensures "" + "$argon2id$v=" + "19" + "$" + ("m=" + "65536") + "," + ("t=" + "3") + "," + ("p=" + "4") + "$"
            == "$argon2id$v=19$m=65536,t=3,p=4$"
  {
    var head := "" + "$argon2id$v=" + "19" + "$";
    assert head == "$argon2id$v=19$";
    assert head + ("m=" + "65536") == "$argon2id$v=19$m=65536";
  }

  predicate Bearable(f: Fields)
  {
    && f.version == ARGON_VERSION && |f.salt| >= 16 && |f.key| == ARGON_KEY_LEN
    && 16 * 1024 <= f.memory <= 2 * 1024 * 1024 && 1 <= f.iterations <= 10 && 1 <= f.threads <= 32
  }

  /** The text is the written form of bearable parameters whose key is the one derived from the password. */
  ghost predicate Verifies(kdf: Kdf, password: seq<Byte>, encoded: string)
  {
    exists f :: Written(encoded, f) && Bearable(f)
                && kdf(password, f.salt, f.iterations, f.memory, f.threads, |f.key|) == f.key
  }

  /** Against the hash of a password, a candidate verifies exactly when Argon2id derives the same key from both. */
  lemma HashVerifiesExactly(kdf: Kdf, password: seq<Byte>, salt: seq<Byte>, encoded: string, candidate: seq<Byte>)
    requires |salt| == ARGON_SALT_LEN && Parse(encoded) == Some(Hashed(kdf, password, salt))
    requires |Hashed(kdf, password, salt).key| == ARGON_KEY_LEN
    ensures Verifies(kdf, candidate, encoded) <==> Hashed(kdf, candidate, salt).key == Hashed(kdf, password, salt).key
  {
    hide Written, Parse;
    forall f
      ensures Written(encoded, f) <==> Parse(encoded) == Some(f)
    {
      ParseExactly(encoded, f);
    }
  }

  method VerifyPassword(kdf: Kdf, password: seq<Byte>, encoded: string) returns (ok: bool)
    ensures ok <==> Verifies(kdf, password, encoded)
  {
    hide Written, Parse;
    var parsed := ParsePHC(encoded);
    forall f
      ensures Written(encoded, f) <==> parsed == Some(f)
    {
      ParseExactly(encoded, f);
    }
    if parsed == None || parsed.value.version != ARGON_VERSION || |parsed.value.salt| < 16
      || |parsed.value.key| != ARGON_KEY_LEN {
      return false;
    }
    var f := parsed.value;
    if f.memory < 16 * 1024 || f.memory > 2 * 1024 * 1024 || f.iterations == 0 || f.iterations > 10 || f.threads == 0
      || f.threads > 32 {
      return false;
    }
    return kdf(password, f.salt, f.iterations, f.memory, f.threads, |f.key|) == f.key;
  }

  /** The text of a hash with its numbers in decimal and its parameters in the printed order. */
  function HashText(version: nat, memory: nat, iterations: nat, threads: nat, salt: seq<Byte>, key: seq<Byte>): string
  {
    "$argon2id$v=" + Decimal(version) + "$m=" + Decimal(memory) + ",t=" + Decimal(iterations) + ",p=" + Decimal(threads)
    + "$" + Encode(RAW_STD, salt) + "$" + Encode(RAW_STD, key)
  }

  lemma HashTextIsWritten(f: Fields)
    ensures HashText(f.version, f.memory, f.iterations, f.threads, f.salt, f.key) ==
            Write(LayoutOf(f, "", Parameters(f)))
  {
    hide Write, Encode, Decimal;
    WriteText(LayoutOf(f, "", Parameters(f)));
  }

  /** Which hashes verify: version 19, at least 16 bytes of salt, a key of 32 bytes, 16384 to 2097152 KiB of memory,
      one to ten passes, one to 32 threads, and the key Argon2id derives from the password with these. */
  lemma VerifiesTextExactly(kdf: Kdf, password: seq<Byte>, version: nat, memory: nat, iterations: nat, threads: nat,
      salt: seq<Byte>, key: seq<Byte>)
    requires version < 0x1_0000_0000 && memory < 0x1_0000_0000 && iterations < 0x1_0000_0000 && threads < 0x100
    ensures Verifies(kdf, password, HashText(version, memory, iterations, threads, salt, key)) <==>
            && version == 19 && |salt| >= 16 && |key| == 32 && 16384 <= memory <= 2097152
            && 1 <= iterations <= 10 && 1 <= threads <= 32
            && kdf(password, salt, iterations, memory, threads, 32) == key
  {
    var f := Fields(version, memory, iterations, threads, salt, key);
    hide Written, HashText;
    HashTextSays(f);
  }

  lemma HashTextSays(f: Fields)
    requires f.version < UINT32 && f.memory < UINT32 && f.iterations < UINT32 && f.threads < UINT8
    ensures forall g :: Written(HashText(f.version, f.memory, f.iterations, f.threads, f.salt, f.key), g) <==> g == f
  {
    HashTextIsWritten(f);
    RoundTrip("", f, Parameters(f));
    hide Written, Parse, HashText, Write, LayoutOf, Parameters;
    var text := HashText(f.version, f.memory, f.iterations, f.threads, f.salt, f.key);
    forall g
      ensures Written(text, g) <==> g == f
    {
      ParseExactly(text, g);
    }
  }

  /** Wider numbers are never read. */
  lemma ParsedWidths(encoded: string, f: Fields)
    requires Parse(encoded) == Some(f)
    ensures f.version < 0x1_0000_0000 && f.memory < 0x1_0000_0000 && f.iterations < 0x1_0000_0000 && f.threads < 0x100
    ensures exists prefix, version, params, salt, key :: |Split(params, ',')| == 3
              && encoded == prefix + "$argon2id$v=" + version + "$" + params + "$" + salt + "$" + key
  {
    hide Split, Join, Lookup, WellNamed, Decode;
    var parts := Split(encoded, '$');
    JoinSplit(encoded, '$');
    assert parts[2] == "v=" + parts[2][2..];
    JoinSix(parts[0], parts[1], parts[2], parts[3], parts[4], parts[5]);
    assert parts == [parts[0], parts[1], parts[2], parts[3], parts[4], parts[5]];
    assert encoded == parts[0] + "$argon2id$v=" + parts[2][2..] + "$" + parts[3] + "$" + parts[4] + "$" + parts[5];
  }
}
