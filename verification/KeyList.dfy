/** The JSON text of a list of strings, as encoding/json writes and reads it. */
module KeyList {
  import opened Wrappers

  function HexDigit(n: nat): char
    requires n < 16
  {
    "0123456789abcdef"[n]
  }

  function HexValue(c: char): Option<nat> {
    if '0' <= c <= '9' then Some((c - '0') as nat)
    else if 'a' <= c <= 'f' then Some((c - 'a') as nat + 10)
    else None
  }

  function Hex2(n: nat): string
    requires n < 256
  {
    [HexDigit(n / 16), HexDigit(n % 16)]
  }

  function Hex4(n: nat): string
    requires n < 0x10000
  {
    Hex2(n / 256) + Hex2(n % 256)
  }

  function Unhex2(s: string): Option<nat>
    requires |s| >= 2
  {
    match (HexValue(s[0]), HexValue(s[1]))
    case (Some(a), Some(b)) => Some(a * 16 + b)
    case _ => None
  }

  function Unhex4(s: string): Option<nat>
    requires |s| >= 4
  {
    match (Unhex2(s[..2]), Unhex2(s[2..4]))
    case (Some(a), Some(b)) => Some(a * 256 + b)
    case _ => None
  }

  /** Marshal writes these as \u escapes: control characters, the HTML-sensitive ones, line separators. */
  predicate NeedsHex(c: char) {
    c < ' ' || c == '<' || c == '>' || c == '&' || c == '\U{2028}' || c == '\U{2029}'
  }

  function EscapeChar(c: char): string {
    if c == '"' then "\\\""
    else if c == '\\' then "\\\\"
    else if c == '\U{8}' then "\\b"
    else if c == '\U{c}' then "\\f"
    else if c == '\n' then "\\n"
    else if c == '\r' then "\\r"
    else if c == '\t' then "\\t"
    else if NeedsHex(c) then "\\u" + Hex4(c as nat)
    else [c]
  }

  /** The character at the front of `s` and how much of `s` it takes. */
  function ReadChar(s: string): (r: Option<(char, nat)>)
    requires s != []
    ensures r.Some? ==> 0 < r.value.1 <= |s|
  {
    if s[0] != '\\' then (if s[0] < ' ' then None else Some((s[0], 1)))
    else if |s| < 2 then None
    else if s[1] == '"' || s[1] == '\\' || s[1] == '/' then Some((s[1], 2))
    else if s[1] == 'b' then Some(('\U{8}', 2))
    else if s[1] == 'f' then Some(('\U{c}', 2))
    else if s[1] == 'n' then Some(('\n', 2))
    else if s[1] == 'r' then Some(('\r', 2))
    else if s[1] == 't' then Some(('\t', 2))
    else if s[1] == 'u' && |s| >= 6 then
      match Unhex4(s[2..6])
      case Some(n) => if n < 0xD800 then Some((n as char, 6)) else None
      case None => None
    else None
  }

  function Escape(k: string): string {
    if k == [] then [] else EscapeChar(k[0]) + Escape(k[1..])
  }

  /** Reads up to the closing quote: the text and what follows the quote. */
  function ReadString(s: string): (r: Option<(string, string)>)
    ensures r.Some? ==> |r.value.1| < |s|
    decreases |s|
  {
    if s == [] then None
    else if s[0] == '"' then Some(([], s[1..]))
    else match ReadChar(s)
      case None => None
      case Some((c, n)) =>
        match ReadString(s[n..])
        case None => None
        case Some((k, rest)) => Some(([c] + k, rest))
  }

  function Quote(k: string): string {
    "\"" + Escape(k) + "\""
  }

  function EncodeItems(ks: seq<string>): string {
    if ks == [] then "]"
    else Quote(ks[0]) + (if |ks| == 1 then "]" else "," + EncodeItems(ks[1..]))
  }

  function Encode(ks: seq<string>): (s: string)
    ensures s != ""
  {
    "[" + EncodeItems(ks)
  }

  /** One or more items and the closing bracket. */
  function DecodeItems(s: string): Option<seq<string>>
    decreases |s|
  {
    if s == [] || s[0] != '"' then None
    else match ReadString(s[1..])
      case None => None
      case Some((k, rest)) =>
        if rest == "]" then Some([k])
        else if rest == [] || rest[0] != ',' then None
        else match DecodeItems(rest[1..])
          case None => None
          case Some(ks) => Some([k] + ks)
  }

  /** Text that does not have the shape Encode writes counts as no list. */
  function Decode(s: string): Option<seq<string>> {
    if s == "[]" then Some([])
    else if s != [] && s[0] == '[' then DecodeItems(s[1..])
    else None
  }

  lemma HexRoundTrip(n: nat)
    requires n < 16
    ensures HexValue(HexDigit(n)) == Some(n)
  {
  }

  lemma Hex2RoundTrip(n: nat)
    requires n < 256
    ensures Unhex2(Hex2(n)) == Some(n)
  {
    HexRoundTrip(n / 16);
    HexRoundTrip(n % 16);
  }

  lemma Hex4RoundTrip(n: nat)
    requires n < 0x10000
    ensures Unhex4(Hex4(n)) == Some(n)
  {
    hide HexDigit, HexValue, Unhex2;
    Hex2RoundTrip(n / 256);
    Hex2RoundTrip(n % 256);
    assert Hex4(n)[..2] == Hex2(n / 256) && Hex4(n)[2..4] == Hex2(n % 256);
  }

  lemma CharRoundTrip(c: char, t: string)
    ensures ReadChar(EscapeChar(c) + t) == Some((c, |EscapeChar(c)|))
    ensures (EscapeChar(c) + t)[0] != '"'
    ensures (EscapeChar(c) + t)[|EscapeChar(c)|..] == t
  {
    if NeedsHex(c) && |EscapeChar(c)| == 6 {
      Hex4RoundTrip(c as nat);
      assert (EscapeChar(c) + t)[2..6] == Hex4(c as nat);
    }
  }

  lemma {:induction false} StringRoundTrip(k: string, t: string)
    ensures ReadString(Escape(k) + "\"" + t) == Some((k, t))
  {
    var s := Escape(k) + "\"" + t;
    if k == [] {
      assert s[1..] == t;
    } else {
      var tail := Escape(k[1..]) + "\"" + t;
      assert s == EscapeChar(k[0]) + tail;
      CharRoundTrip(k[0], tail);
      StringRoundTrip(k[1..], t);
      assert k == [k[0]] + k[1..];
    }
  }

  lemma QuotedRoundTrip(k: string, t: string)
    ensures (Quote(k) + t)[0] == '"'
    ensures ReadString((Quote(k) + t)[1..]) == Some((k, t))
  {
    StringRoundTrip(k, t);
    assert (Quote(k) + t)[1..] == Escape(k) + "\"" + t;
  }

  lemma {:induction false} ItemsRoundTrip(ks: seq<string>)
    requires ks != []
    ensures DecodeItems(EncodeItems(ks)) == Some(ks)
  {
    if |ks| == 1 {
      QuotedRoundTrip(ks[0], "]");
      assert ks == [ks[0]];
    } else {
      var rest := "," + EncodeItems(ks[1..]);
      QuotedRoundTrip(ks[0], rest);
      assert rest[0] == ',' && rest[1..] == EncodeItems(ks[1..]);
      ItemsRoundTrip(ks[1..]);
      assert ks == [ks[0]] + ks[1..];
    }
  }

  /** Reading back a written key list yields the keys, whatever characters they contain. */
  lemma RoundTrip(ks: seq<string>)
    ensures Decode(Encode(ks)) == Some(ks)
  {
    if ks != [] {
      ItemsRoundTrip(ks);
      assert Encode(ks)[1..] == EncodeItems(ks);
    }
  }

  /** Letters, digits and most signs stand for themselves. */
  predicate Literal(c: char) {
    ' ' <= c <= '~' && c !in {'"', '\\', '<', '>', '&'}
  }

  lemma {:induction false} EscapeLiteral(k: string)
    requires forall i :: 0 <= i < |k| ==> Literal(k[i])
    ensures Escape(k) == k
  {
    if k != [] {
      EscapeLiteral(k[1..]);
      assert [k[0]] + k[1..] == k;
    }
  }

  lemma QuoteLiteral(k: string)
    requires forall i :: 0 <= i < |k| ==> Literal(k[i])
    ensures Quote(k) == "\"" + k + "\""
  {
    EscapeLiteral(k);
  }

  /** The text of a list of such keys: quoted, with commas between them, in brackets. */
  lemma TextOfItems(ks: seq<string>)
    requires forall i, j :: 0 <= i < |ks| && 0 <= j < |ks[i]| ==> Literal(ks[i][j])
    ensures ks == [] ==> Encode(ks) == "[]"
    ensures |ks| == 1 ==> Encode(ks) == "[" + ("\"" + ks[0] + "\"") + "]"
    ensures |ks| > 1 ==> Encode(ks) == "[" + (("\"" + ks[0] + "\"") + ("," + Encode(ks[1..])[1..]))
  {
    if ks != [] {
      QuoteLiteral(ks[0]);
      hide Quote, Literal;
      assert Encode(ks[1..])[1..] == EncodeItems(ks[1..]);
      if |ks| == 1 {
        assert "[" + (Quote(ks[0]) + "]") == "[" + Quote(ks[0]) + "]";
      }
    }
  }

  lemma EscapeOne(c: char)
    ensures Escape([c]) == EscapeChar(c)
  {
    assert [c][1..] == [];
    assert Escape([]) == [];
    hide EscapeChar;
  }

  /** The character that stands for a hexadecimal digit. */
  function Digit(n: nat): char
    requires n < 16
  {
    if n < 10 then '0' + n as char else 'a' + (n - 10) as char
  }

  lemma DigitIs(n: nat)
    requires n < 16
    ensures HexDigit(n) == Digit(n)
  {
  }

  /** What Marshal does to other signs: a few have a short escape, and the others get the code in four
      hexadecimal digits. */
  lemma TextOfSigns(c: char)
    ensures var n := c as nat;
            Escape([c]) ==
              if c == '"' then ['\\', '"'] else if c == '\\' then ['\\', '\\']
              else if n == 8 then ['\\', 'b'] else if n == 12 then ['\\', 'f']
              else if n == 10 then ['\\', 'n'] else if n == 13 then ['\\', 'r'] else if n == 9 then ['\\', 't']
              else if n < 0x20 || n == 0x3c || n == 0x3e || n == 0x26 || n == 0x2028 || n == 0x2029 then
                ['\\', 'u', Digit(n / 4096), Digit(n / 256 % 16), Digit(n / 16 % 16), Digit(n % 16)]
              else [c]
  {
    EscapeOne(c);
    hide Escape;
    if NeedsHex(c) {
      FourDigits(c as nat);
      hide Hex4, Digit;
    }
  }

  lemma FourDigits(n: nat)
    requires n < 0x10000
    ensures Hex4(n) == [Digit(n / 4096), Digit(n / 256 % 16), Digit(n / 16 % 16), Digit(n % 16)]
  {
    hide HexDigit, Digit;
    assert n / 256 / 16 == n / 4096 && n % 256 / 16 == n / 16 % 16 && n % 256 % 16 == n % 16;
    DigitIs(n / 4096);
    DigitIs(n / 256 % 16);
    DigitIs(n / 16 % 16);
    DigitIs(n % 16);
  }
}
