/** Globally unique identifiers as the service uses them: parsed from a call id
    (Guid.TryParse) and printed into a guest identity (Guid.ToString). A Guid is
    its 32 hexadecimal digits in the order they are printed. */
module Guids {
  import opened Failures

  type Nibble = n: nat | n < 16

  type Guid = s: seq<Nibble> | |s| == 32 witness Zeros32

  /** Guid.Empty, the value of `default(Guid)`. */
  const Empty: Guid := Zeros32

  const Zeros32: seq<Nibble> := Zeros(32)

  function Zeros(n: nat): (s: seq<Nibble>)
    ensures |s| == n
  {
    if n == 0 then [] else [0] + Zeros(n - 1)
  }

  /** The lower-case digit Guid.ToString() prints for `n`. */
  function HexDigit(n: Nibble): (c: char)
    ensures HexValue(c) == Some(n)
  {
    if n < 10 then ('0' as int + n) as char else ('a' as int + n - 10) as char
  }

  /** The value of one hexadecimal digit, either case. */
  function HexValue(c: char): (r: Option<Nibble>)
    ensures r.Some? <==> ('0' <= c <= '9' || 'a' <= c <= 'f' || 'A' <= c <= 'F')
  {
    if '0' <= c <= '9' then Some(c as int - '0' as int)
    else if 'a' <= c <= 'f' then Some(c as int - 'a' as int + 10)
    else if 'A' <= c <= 'F' then Some(c as int - 'A' as int + 10)
    else None
  }

  function HexString(ds: seq<Nibble>): (s: string)
    ensures |s| == |ds|
  {
    seq(|ds|, i requires 0 <= i < |ds| => HexDigit(ds[i]))
  }

  /** The digits of `s`, when every character of `s` is a hexadecimal digit. */
  function ParseHex(s: string): (r: Option<seq<Nibble>>)
    ensures r.Some? <==> forall i :: 0 <= i < |s| ==> HexValue(s[i]).Some?
    ensures r.Some? ==> |r.value| == |s|
    ensures r.Some? ==> forall i :: 0 <= i < |s| ==> HexValue(s[i]) == Some(r.value[i])
  {
    if s == [] then Some([])
    else
      match HexValue(s[0])
      case None => None
      case Some(d) =>
        match ParseHex(s[1..])
        case None => None
        case Some(rest) => Some([d] + rest)
  }

  /** Guid.ToString(): the "D" format, lower-case digits in groups 8-4-4-4-12. */
  function Format(g: Guid): (s: string)
    ensures |s| == 36
    ensures s[8] == '-' && s[13] == '-' && s[18] == '-' && s[23] == '-'
  {
    HexString(g[..8]) + "-" + HexString(g[8..12]) + "-" + HexString(g[12..16]) + "-"
      + HexString(g[16..20]) + "-" + HexString(g[20..])
  }

  /** Where the `k`-th digit stands in the "D" format. */
  function Position(k: nat): (p: nat)
    requires k < 32
    ensures p < 36 && p != 8 && p != 13 && p != 18 && p != 23
  {
    if k < 8 then k else if k < 12 then k + 1 else if k < 16 then k + 2
    else if k < 20 then k + 3 else k + 4
  }

  /** The 32 digit characters of a "D"-shaped string, hyphens dropped. */
  function Digits(s: string): (d: string)
    requires |s| == 36
    ensures |d| == 32
    ensures forall k :: 0 <= k < 32 ==> d[k] == s[Position(k)]
  {
    s[..8] + s[9..13] + s[14..18] + s[19..23] + s[24..]
  }

  /** The "D" format (hyphenated groups), either case. */
  function ParseD(s: string): Option<Guid> {
    if |s| == 36 && s[8] == '-' && s[13] == '-' && s[18] == '-' && s[23] == '-' then
      match ParseHex(Digits(s))
      case None => None
      case Some(ds) => Some(ds)
    else None
  }

  /** Guid.TryParse over the "N" (32 digits), "D", "B" ({D}) and "P" ((D)) formats. */
  function TryParse(s: string): (r: Option<Guid>)
    ensures r.Some? ==> |s| == 32 || |s| == 36 || |s| == 38
  {
    if |s| == 32 then
      match ParseHex(s)
      case None => None
      case Some(ds) => Some(ds)
    else if |s| == 36 then ParseD(s)
    else if |s| == 38 && ((s[0] == '{' && s[37] == '}') || (s[0] == '(' && s[37] == ')')) then
      ParseD(s[1..37])
    else None
  }

  lemma {:induction false} ParseHexString(ds: seq<Nibble>)
    ensures ParseHex(HexString(ds)) == Some(ds)
  {
    if ds != [] {
      var s := HexString(ds);
      ParseHexString(ds[1..]);
      assert s[1..] == HexString(ds[1..]);
      assert HexValue(s[0]) == Some(ds[0]);
      assert ds == [ds[0]] + ds[1..];
    }
  }

  lemma FormatAt(g: Guid, k: nat)
    requires k < 32
    ensures Format(g)[Position(k)] == HexDigit(g[k])
  {
  }

  /** Every printed Guid parses back to itself: TryParse(g.ToString()) == g. */
  lemma FormatRoundTrip(g: Guid)
    ensures TryParse(Format(g)) == Some(g)
  {
    var s := Format(g);
    forall k | 0 <= k < 32 ensures Digits(s)[k] == HexString(g)[k] {
      FormatAt(g, k);
    }
    assert Digits(s) == HexString(g);
    ParseHexString(g);
  }

  /** ASCII lower case: the letter case Guid parsing disregards. */
  function LowerChar(c: char): char {
    if 'A' <= c <= 'Z' then (c as int + 32) as char else c
  }

  function Lower(s: string): (t: string)
    ensures |t| == |s|
    ensures forall i :: 0 <= i < |s| ==> t[i] == LowerChar(s[i])
  {
    seq(|s|, i requires 0 <= i < |s| => LowerChar(s[i]))
  }

  /** A character is the digit `n` exactly when, lower-cased, it is what
      ToString() prints for `n`. */
  lemma HexValueLower(c: char, n: Nibble)
    ensures HexValue(c) == Some(n) <==> LowerChar(c) == HexDigit(n)
  {
  }

  /** A digit string parses to `ds` exactly when, lower-cased, it is the
      printed form of `ds`. */
  lemma ParseHexLower(s: string, ds: seq<Nibble>)
    ensures ParseHex(s) == Some(ds) <==> Lower(s) == HexString(ds)
  {
    if ParseHex(s) == Some(ds) {
      forall i | 0 <= i < |s| ensures Lower(s)[i] == HexString(ds)[i] {
        HexValueLower(s[i], ds[i]);
      }
    }
    if Lower(s) == HexString(ds) {
      forall i | 0 <= i < |s| ensures HexValue(s[i]) == Some(ds[i]) {
        HexValueLower(s[i], ds[i]);
      }
      var r := ParseHex(s);
      assert r.Some?;
      assert r.value == ds;
    }
  }

  /** A 36-character string parses in the "D" format to `g` exactly when,
      lower-cased, it is what ToString() prints for `g`. */
  lemma ParseDLower(s: string, g: Guid)
    requires |s| == 36
    ensures ParseD(s) == Some(g) <==> Lower(s) == Format(g)
  {
    var f := Format(g);
    var hyphens := s[8] == '-' && s[13] == '-' && s[18] == '-' && s[23] == '-';
    ParseHexLower(Digits(s), g);
    forall k | 0 <= k < 32
      ensures Lower(Digits(s))[k] == LowerChar(s[Position(k)])
      ensures f[Position(k)] == HexString(g)[k]
    {
      FormatAt(g, k);
    }
    if ParseD(s) == Some(g) {
      assert hyphens && Lower(Digits(s)) == HexString(g);
      forall i | 0 <= i < 36 ensures Lower(s)[i] == f[i] {
        if i !in {8, 13, 18, 23} {
          var k := if i < 8 then i else if i < 13 then i - 1 else if i < 18 then i - 2
                   else if i < 23 then i - 3 else i - 4;
          assert Position(k) == i;
        }
      }
    }
    if Lower(s) == f {
      assert Lower(s)[8] == f[8] && Lower(s)[13] == f[13] && Lower(s)[18] == f[18] && Lower(s)[23] == f[23];
      assert hyphens;
      forall k | 0 <= k < 32 ensures Lower(Digits(s))[k] == HexString(g)[k] {
        assert Lower(s)[Position(k)] == f[Position(k)];
      }
      assert Lower(Digits(s)) == HexString(g);
    }
  }

  /** A 38-character string, lower-cased, is `f` between `open` and `close`
      exactly when it starts with `open`, ends with `close` and its inside,
      lower-cased, is `f`. */
  lemma WrappedLower(s: string, open: char, close: char, f: string)
    requires |s| == 38 && |f| == 36
    requires !('a' <= open <= 'z') && !('A' <= open <= 'Z')
    requires !('a' <= close <= 'z') && !('A' <= close <= 'Z')
    ensures Lower(s) == [open] + f + [close] <==>
            s[0] == open && s[37] == close && Lower(s[1..37]) == f
  {
    var w := [open] + f + [close];
    if Lower(s) == w {
      assert Lower(s)[0] == w[0] && Lower(s)[37] == w[37];
      forall i | 0 <= i < 36 ensures Lower(s[1..37])[i] == f[i] {
        assert Lower(s)[i + 1] == w[i + 1];
      }
    }
    if s[0] == open && s[37] == close && Lower(s[1..37]) == f {
      forall i | 0 <= i < 38 ensures Lower(s)[i] == w[i] {
        if 0 < i < 37 {
          assert Lower(s[1..37])[i - 1] == f[i - 1];
        }
      }
      assert Lower(s) == w;
    }
  }

  /** `s` spells `g` in one of the forms ToString() gives ("N", "D", "B",
      "P"), letter case aside. */
  predicate Spells(s: string, g: Guid) {
    var t := Lower(s);
    t == HexString(g) || t == Format(g) || t == "{" + Format(g) + "}" || t == "(" + Format(g) + ")"
  }

  lemma TryParseN(s: string, g: Guid)
    requires |s| == 32
    ensures TryParse(s) == Some(g) <==> Spells(s, g)
  {
    ParseHexLower(s, g);
    assert TryParse(s) == Some(g) <==> ParseHex(s) == Some(g);
    assert Spells(s, g) <==> Lower(s) == HexString(g);
  }

  lemma TryParseD(s: string, g: Guid)
    requires |s| == 36
    ensures TryParse(s) == Some(g) <==> Spells(s, g)
  {
    ParseDLower(s, g);
    assert TryParse(s) == ParseD(s);
    assert Spells(s, g) <==> Lower(s) == Format(g);
  }

  lemma TryParseBP(s: string, g: Guid)
    requires |s| == 38
    ensures TryParse(s) == Some(g) <==> Spells(s, g)
  {
    var f := Format(g);
    WrappedLower(s, '{', '}', f);
    WrappedLower(s, '(', ')', f);
    ParseDLower(s[1..37], g);
    assert "{" + f + "}" == ['{'] + f + ['}'];
    assert "(" + f + ")" == ['('] + f + [')'];
    assert Spells(s, g) <==> Lower(s) == ['{'] + f + ['}'] || Lower(s) == ['('] + f + [')'];
  }

  /** Guid.TryParse yields `g` exactly for the strings that spell `g` in the
      "N", "D", "B" or "P" format, in either letter case. */
  lemma TryParseExactly(s: string, g: Guid)
    ensures TryParse(s) == Some(g) <==> Spells(s, g)
  {
    if |s| == 32 {
      TryParseN(s, g);
    } else if |s| == 36 {
      TryParseD(s, g);
    } else if |s| == 38 {
      TryParseBP(s, g);
    } else {
      assert !Spells(s, g);
    }
  }
}
