/**
 * A stand-in for `json.dumps(data)` on a dict of strings, with the library's
 * defaults: separators ", " and ": ", keys in insertion order, and
 * `ensure_ascii`, so that every character outside printable ASCII, and the
 * quote and the backslash, is written as an escape.
 */
module Json {
  import opened PyDict

  /** The characters `json.dumps` writes as they are, apart from '"' and '\\'. */
  predicate Printable(c: char)
  {
    ' ' <= c <= '~'
  }

  /** A string `json.dumps` writes between quotes unchanged. */
  predicate Plain(s: string)
  {
    forall i :: 0 <= i < |s| ==> Printable(s[i]) && s[i] != '"' && s[i] != '\\'
  }

  const HexDigits: string := "0123456789abcdef"

  /** Four lower-case hexadecimal digits, as `'{0:04x}'.format(n)`. */
  function Hex4(n: int): (r: string)
    requires 0 <= n < 0x10000
    ensures |r| == 4
    ensures forall i :: 0 <= i < 4 ==> r[i] in HexDigits
  {
    [HexDigits[n / 4096], HexDigits[n / 256 % 16], HexDigits[n / 16 % 16], HexDigits[n % 16]]
  }

  /**
   * The text one character becomes: the short escapes for quote, backslash,
   * newline, carriage return, tab, backspace and form feed, `\uXXXX` for the
   * other characters outside printable ASCII, and a surrogate pair of two
   * such escapes above U+FFFF.
   */
  function EscapeChar(c: char): (r: string)
    ensures |r| > 0
    ensures forall i :: 0 <= i < |r| ==> Printable(r[i])
    ensures Printable(c) && c != '"' && c != '\\' ==> r == [c]
  {
    if c == '"' then "\\\""
    else if c == '\\' then "\\\\"
    else if c == '\n' then "\\n"
    else if c == '\r' then "\\r"
    else if c == '\t' then "\\t"
    else if c as int == 8 then "\\b"
    else if c as int == 12 then "\\f"
    else if Printable(c) then [c]
    else if c as int < 0x10000 then "\\u" + Hex4(c as int)
    else
      var n := c as int - 0x10000;
      "\\u" + Hex4(0xD800 + n / 1024) + "\\u" + Hex4(0xDC00 + n % 1024)
  }

  /** Every character is printable ASCII. */
  predicate AllPrintable(s: string)
  {
    forall i :: 0 <= i < |s| ==> Printable(s[i])
  }

  /** The escaped body of a JSON string. */
  function Escape(s: string): string
  {
    if s == [] then [] else EscapeChar(s[0]) + Escape(s[1..])
  }

  /** A JSON string literal. */
  function Quote(s: string): string
  {
    "\"" + Escape(s) + "\""
  }

  /**
   * The members of a JSON object, each `"key": "value"` in the order of
   * `keys`, joined by ", ". Every key of a dict is in its map; the empty
   * string only keeps the function total.
   */
  function Members(keys: seq<string>, values: map<string, string>): string
  {
    if keys == [] then ""
    else
      var value := if keys[0] in values then values[keys[0]] else "";
      var member := Quote(keys[0]) + ": " + Quote(value);
      if |keys| == 1 then member else member + ", " + Members(keys[1..], values)
  }

  /** `json.dumps(d)` on a dict of strings: one object, between braces. */
  function Serialize(d: Dict): (r: string)
    ensures |r| >= 2 && r[0] == '{' && r[|r| - 1] == '}'
  {
    "{" + Members(d.order, d.values) + "}"
  }

  lemma PrintableConcat(a: string, b: string)
    requires AllPrintable(a) && AllPrintable(b)
    ensures AllPrintable(a + b)
  {
    assert forall i :: 0 <= i < |a + b| ==> (a + b)[i] == if i < |a| then a[i] else b[i - |a|];
  }

  /** The escaped body of a string is printable ASCII, whatever the string holds. */
  lemma {:induction false} EscapePrintable(s: string)
    ensures AllPrintable(Escape(s))
    decreases |s|
  {
    if s != [] {
      EscapePrintable(s[1..]);
      PrintableConcat(EscapeChar(s[0]), Escape(s[1..]));
    }
  }

  /** A string that needs no escape is written as it is. */
  lemma {:induction false} EscapePlain(s: string)
    requires Plain(s)
    ensures Escape(s) == s
    decreases |s|
  {
    if s != [] {
      assert Plain(s[1..]) by {
        forall i | 0 <= i < |s[1..]| ensures Printable(s[1..][i]) && s[1..][i] != '"' && s[1..][i] != '\\' {
          assert s[1..][i] == s[i + 1];
        }
      }
      EscapePlain(s[1..]);
      assert EscapeChar(s[0]) == [s[0]];
      assert [s[0]] + s[1..] == s;
    }
  }

  /** A string literal is printable ASCII between two quotes. */
  lemma QuoteShape(s: string)
    ensures var q := Quote(s);
            && AllPrintable(q) && |q| >= 2 && q[0] == '"' && q[|q| - 1] == '"'
  {
    EscapePrintable(s);
    PrintableConcat("\"", Escape(s));
    PrintableConcat("\"" + Escape(s), "\"");
  }

  /** The members of an object are printable ASCII. */
  lemma {:induction false} MembersPrintable(keys: seq<string>, values: map<string, string>)
    ensures AllPrintable(Members(keys, values))
    decreases |keys|
  {
    if keys != [] {
      var value := if keys[0] in values then values[keys[0]] else "";
      QuoteShape(keys[0]);
      QuoteShape(value);
      PrintableConcat(Quote(keys[0]), ": ");
      PrintableConcat(Quote(keys[0]) + ": ", Quote(value));
      var member := Quote(keys[0]) + ": " + Quote(value);
      if |keys| > 1 {
        MembersPrintable(keys[1..], values);
        PrintableConcat(member, ", ");
        PrintableConcat(member + ", ", Members(keys[1..], values));
      }
    }
  }

  /**
   * `json.dumps(d)` is one object on a single physical line: braces at both
   * ends, printable ASCII and no line break inside, whatever the keys and
   * values hold.
   */
  lemma SerializeShape(d: Dict)
    ensures var r := Serialize(d);
            && |r| >= 2 && r[0] == '{' && r[|r| - 1] == '}'
            && forall i :: 0 <= i < |r| ==> Printable(r[i]) && r[i] != '\n'
  {
    MembersPrintable(d.order, d.values);
    PrintableConcat("{", Members(d.order, d.values));
    PrintableConcat("{" + Members(d.order, d.values), "}");
  }

  /** The key, ": " and the value, with a quote and a line break in the value written as escapes. */
  lemma SerializeEscapeExample()
    ensures Serialize(Dict(["k"], map["k" := "\"\n"])) == "{\"k\": \"\\\"\\n\"}"
  {
  }
}
