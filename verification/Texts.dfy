/** The text operations the PHC parser uses: splitting at a separator and unsigned decimal numbers. */
module Texts {
  import opened Wrappers

  /** strings.Split with a one-character separator. */
  function Split(text: string, sep: char): (parts: seq<string>)
    ensures |parts| >= 1
  {
    if text == "" then [""]
    else
      var rest := Split(text[1..], sep);
      if text[0] == sep then [""] + rest else [[text[0]] + rest[0]] + rest[1..]
  }

  function Join(parts: seq<string>, sep: char): string
    requires |parts| >= 1
  {
    if |parts| == 1 then parts[0] else parts[0] + [sep] + Join(parts[1..], sep)
  }

  ghost predicate Without(parts: seq<string>, sep: char)
  {
    forall i :: 0 <= i < |parts| ==> sep !in parts[i]
  }

  lemma {:induction false} SplitHead(head: string, rest: string, sep: char)
    requires sep !in head
    ensures Split(head, sep) == [head]
    ensures Split(head + [sep] + rest, sep) == [head] + Split(rest, sep)
  {
    var text := head + [sep] + rest;
    if head == "" {
      assert text[1..] == rest;
    } else {
      assert text[1..] == head[1..] + [sep] + rest;
      SplitHead(head[1..], rest, sep);
      assert head == [head[0]] + head[1..];
    }
  }

  lemma {:induction false} SplitJoin(parts: seq<string>, sep: char)
    requires |parts| >= 1 && Without(parts, sep)
    ensures Split(Join(parts, sep), sep) == parts
  {
    if |parts| == 1 {
      SplitHead(parts[0], "", sep);
    } else {
      SplitJoin(parts[1..], sep);
      SplitHead(parts[0], Join(parts[1..], sep), sep);
    }
  }

  lemma {:induction false} JoinSplit(text: string, sep: char)
    ensures Join(Split(text, sep), sep) == text && Without(Split(text, sep), sep)
  {
    if text != "" {
      var rest := Split(text[1..], sep);
      JoinSplit(text[1..], sep);
      if text[0] == sep {
        assert Split(text, sep)[1..] == rest;
      } else {
        assert Split(text, sep)[1..] == rest[1..];
        assert |rest| > 1 ==> Join(rest, sep) == rest[0] + [sep] + Join(rest[1..], sep);
      }
    }
  }

  lemma {:induction false} JoinWithout(parts: seq<string>, sep: char, c: char)
    requires |parts| >= 1 && Without(parts, c) && c != sep
    ensures c !in Join(parts, sep)
  {
    if |parts| > 1 {
      JoinWithout(parts[1..], sep, c);
    }
  }

  // ---- White space ----

  predicate IsSpace(c: char)
  {
    c == ' ' || ('\t' <= c <= '\r')
  }

  function TrimLeft(text: string): string
  {
    if text != "" && IsSpace(text[0]) then TrimLeft(text[1..]) else text
  }

  function TrimRight(text: string): string
  {
    if text != "" && IsSpace(text[|text| - 1]) then TrimRight(text[..|text| - 1]) else text
  }

  /** strings.TrimSpace, for the white space of ASCII. */
  function TrimSpace(text: string): string
  {
    TrimRight(TrimLeft(text))
  }

  predicate Blank(text: string)
  {
    forall i :: 0 <= i < |text| ==> IsSpace(text[i])
  }

  lemma BlankExactly(text: string)
    ensures Blank(text) <==> forall c :: c in text ==> c in " \t\n\U{0B}\U{0C}\r"
  {
    var white := " \t\n\U{0B}\U{0C}\r";
    assert forall i :: 0 <= i < 6 ==> white[i] == ' ' || '\t' <= white[i] <= '\r';
    assert white[0] == ' ' && white[1] == '\t' && white[2] == '\n' && white[5] == '\r';
    assert white[3] == '\n' + 1 as char && white[4] == '\n' + 2 as char;
    forall c
      ensures IsSpace(c) <==> c in white
    {
    }
  }

  lemma {:induction false} TrimLeftBlank(text: string)
    ensures TrimLeft(text) == "" <==> Blank(text)
    ensures TrimLeft(text) != "" ==> !IsSpace(TrimLeft(text)[0])
  {
    if text != "" && IsSpace(text[0]) {
      TrimLeftBlank(text[1..]);
      assert forall i :: 1 <= i < |text| ==> text[i] == text[1..][i - 1];
    }
  }

  lemma {:induction false} TrimRightKeepsFirst(text: string)
    requires text != "" && !IsSpace(text[0])
    ensures TrimRight(text) != ""
  {
    if IsSpace(text[|text| - 1]) {
      TrimRightKeepsFirst(text[..|text| - 1]);
    }
  }

  /** Nothing is left after trimming exactly when there was nothing but white space. */
  lemma TrimsToNothingExactly(text: string)
    ensures TrimSpace(text) == "" <==> Blank(text)
  {
    TrimLeftBlank(text);
    if TrimLeft(text) != "" {
      TrimRightKeepsFirst(TrimLeft(text));
    }
  }

  // ---- Unsigned decimals ----

  predicate IsDigit(c: char)
  {
    '0' <= c <= '9'
  }

  predicate AllDigits(text: string)
  {
    forall i :: 0 <= i < |text| ==> IsDigit(text[i])
  }

  function Value(text: string): nat
    requires AllDigits(text)
  {
    if text == "" then 0 else Value(text[..|text| - 1]) * 10 + (text[|text| - 1] - '0') as nat
  }

  /** strconv.ParseUint in base 10; bound is two to the bit size. */
  function ParseUint(text: string, bound: nat): Option<nat>
  {
    if text == "" || !AllDigits(text) || Value(text) >= bound then None else Some(Value(text))
  }

  function Decimal(n: nat): string
  {
    (if n < 10 then "" else Decimal(n / 10)) + ['0' + (n % 10) as char]
  }

  lemma AppendDigit(text: string, d: nat)
    requires AllDigits(text) && d < 10
    ensures var longer := text + ['0' + d as char]; AllDigits(longer) && Value(longer) == Value(text) * 10 + d
  {
    var longer := text + ['0' + d as char];
    assert longer[..|longer| - 1] == text;
  }

  lemma {:induction false} DecimalValue(n: nat)
    ensures AllDigits(Decimal(n)) && Value(Decimal(n)) == n
  {
    if n < 10 {
      AppendDigit("", n);
      assert Value("") == 0;
    } else {
      DecimalValue(n / 10);
      AppendDigit(Decimal(n / 10), n % 10);
      assert n / 10 * 10 + n % 10 == n;
    }
  }

  lemma ParseInverts(n: nat, bound: nat)
    requires n < bound
    ensures ParseUint(Decimal(n), bound) == Some(n)
  {
    DecimalValue(n);
  }

  function Zeros(k: nat): string
  {
    seq(k, i => '0')
  }

  lemma {:induction false} ZerosValue(k: nat, text: string)
    requires AllDigits(text)
    ensures AllDigits(Zeros(k) + text) && Value(Zeros(k) + text) == Value(text)
  {
    var all := Zeros(k) + text;
    if text != "" {
      ZerosValue(k, text[..|text| - 1]);
      assert all[..|all| - 1] == Zeros(k) + text[..|text| - 1];
    } else if k > 0 {
      ZerosValue(k - 1, "");
      assert all[..|all| - 1] == Zeros(k - 1) + "";
    }
  }

  /** A text of digits is its number in decimal behind some zeros. */
  lemma {:induction false} DigitsAreDecimal(text: string) returns (k: nat)
    requires text != "" && AllDigits(text)
    ensures text == Zeros(k) + Decimal(Value(text))
  {
    var init, d := text[..|text| - 1], (text[|text| - 1] - '0') as nat;
    if init == "" {
      k := 0;
    } else {
      var j := DigitsAreDecimal(init);
      assert text == init + [text[|text| - 1]];
      AppendedDecimal(Value(init), d);
      hide Decimal, Value, AllDigits, Zeros;
      if Value(init) == 0 {
        k := j + 1;
        OneMoreZero(j);
        assert text == Zeros(j) + "0" + Decimal(d);
      } else {
        k := j;
        assert text == Zeros(j) + (Decimal(Value(init)) + ['0' + d as char]);
      }
    }
  }

  lemma AppendedDecimal(v: nat, d: nat)
    requires d < 10
    ensures if v == 0 then Decimal(v) == "0" && Decimal(d) == ['0' + d as char]
            else Decimal(v * 10 + d) == Decimal(v) + ['0' + d as char]
  {
    assert (v * 10 + d) / 10 == v && (v * 10 + d) % 10 == d;
  }

  lemma OneMoreZero(k: nat)
    ensures Zeros(k) + "0" == Zeros(k + 1)
  {
  }

  /** The accepted texts are exactly the numbers below the bound in decimal, with any zeros in front. */
  lemma ParseUintExactly(text: string, bound: nat, v: nat)
    ensures ParseUint(text, bound) == Some(v) <==> v < bound && exists k: nat :: text == Zeros(k) + Decimal(v)
  {
    if ParseUint(text, bound) == Some(v) {
      var k := DigitsAreDecimal(text);
    }
    if k: nat :| text == Zeros(k) + Decimal(v) {
      DecimalValue(v);
      ZerosValue(k, Decimal(v));
    }
  }

  /** Trimming takes white space off both ends, and all of it. */
  lemma TrimSpaceExactly(text: string) returns (front: string, back: string)
    ensures text == front + TrimSpace(text) + back && Blank(front) && Blank(back)
    ensures var t := TrimSpace(text); t != "" ==> !IsSpace(t[0]) && !IsSpace(t[|t| - 1])
  {
    front := TrimmedLeft(text);
    back := TrimmedRight(TrimLeft(text));
    TrimLeftBlank(text);
    var t := TrimSpace(text);
    if t != "" {
      assert TrimLeft(text)[0] == t[0];
    }
  }

  lemma {:induction false} TrimmedLeft(text: string) returns (front: string)
    ensures text == front + TrimLeft(text) && Blank(front)
  {
    front := "";
    if text != "" && IsSpace(text[0]) {
      var rest := TrimmedLeft(text[1..]);
      front := [text[0]] + rest;
      assert text == [text[0]] + text[1..];
    }
  }

  lemma {:induction false} TrimmedRight(text: string) returns (back: string)
    ensures text == TrimRight(text) + back && Blank(back)
    ensures TrimRight(text) != "" ==> !IsSpace(TrimRight(text)[|TrimRight(text)| - 1])
  {
    back := "";
    if text != "" && IsSpace(text[|text| - 1]) {
      var rest := TrimmedRight(text[..|text| - 1]);
      back := rest + [text[|text| - 1]];
      assert text == text[..|text| - 1] + [text[|text| - 1]];
    }
  }
}
