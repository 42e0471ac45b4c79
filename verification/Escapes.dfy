/** String escapes: what the formatter writes for a literal run, and the single-pass
    decoder the parser reads it back with. */
module Escapes {

  /** How one character is written. `parenNext` says whether a `(` follows it. In a block
      string only the backslash and the `$` of a `$(` need escaping. */
  function Unit(c: char, parenNext: bool, block: bool): (u: string)
    ensures (|u| == 1 && u[0] == c && c != '\\') || (|u| == 2 && u[0] == '\\')
  {
    if c == '\\' then "\\\\"
    else if c == '$' && parenNext then "\\$"
    else if block then [c]
    else if c == '\"' then "\\\""
    else if c == '\t' then "\\t"
    else if c == '\r' then "\\r"
    else if c == '\n' then "\\n"
    else [c]
  }

  function Escaped(s: string, block: bool): string {
    if s == [] then [] else Unit(s[0], |s| > 1 && s[1] == '(', block) + Escaped(s[1..], block)
  }

  /** The character an escape stands for; an unknown escape keeps both of its characters. */
  function Unescape(c: char): string {
    match c
    case 'n' => "\n"
    case 't' => "\t"
    case 'r' => "\r"
    case '\"' => "\""
    case '\\' => "\\"
    case '$' => "$"
    case _ => ['\\', c]
  }

  function Decoded(s: string): string {
    if s == [] then []
    else if s[0] != '\\' then [s[0]] + Decoded(s[1..])
    else if |s| == 1 then "\\"
    else Unescape(s[1]) + Decoded(s[2..])
  }

  method EscapeString(s: string) returns (out: string)
    ensures out == Escaped(s, false)
  {
    out := "";
    for i := 0 to |s|
      invariant out + Escaped(s[i..], false) == Escaped(s, false)
    {
      EscapedStep(s, i, false, out);
      var parenNext := i + 1 < |s| && s[i + 1] == '(';
      match s[i] {
        case '\\' => out := out + "\\\\";
        case '\"' => out := out + "\\\"";
        case '\t' => out := out + "\\t";
        case '\r' => out := out + "\\r";
        case '\n' => out := out + "\\n";
        case '$' => out := out + if parenNext then "\\$" else "$";
        case c => out := out + [c];
      }
    }
    assert s[|s|..] == [];
  }

  method EscapeBlockSegment(s: string) returns (out: string)
    ensures out == Escaped(s, true)
  {
    out := "";
    for i := 0 to |s|
      invariant out + Escaped(s[i..], true) == Escaped(s, true)
    {
      EscapedStep(s, i, true, out);
      var parenNext := i + 1 < |s| && s[i + 1] == '(';
      match s[i] {
        case '\\' => out := out + "\\\\";
        case '$' => out := out + if parenNext then "\\$" else "$";
        case c => out := out + [c];
      }
    }
    assert s[|s|..] == [];
  }

  lemma EscapedStep(s: string, i: nat, block: bool, out: string)
    requires i < |s|
    ensures out + Escaped(s[i..], block) == out + Unit(s[i], i + 1 < |s| && s[i + 1] == '(', block) + Escaped(s[i + 1..], block)
  {
    assert s[i..][1..] == s[i + 1..];
  }

  method DecodeStringEscapes(s: string) returns (out: string)
    ensures out == Decoded(s)
  {
    out := "";
    var i := 0;
    while i < |s|
      invariant i <= |s| && out + Decoded(s[i..]) == Decoded(s)
    {
      DecodedStep(s, i, out);
      if s[i] != '\\' {
        out := out + [s[i]];
        i := i + 1;
      } else if i + 1 == |s| {
        out := out + "\\";
        i := i + 1;
      } else {
        match s[i + 1] {
          case 'n' => out := out + "\n";
          case 't' => out := out + "\t";
          case 'r' => out := out + "\r";
          case '\"' => out := out + "\"";
          case '\\' => out := out + "\\";
          case '$' => out := out + "$";
          case other => out := out + ['\\', other];
        }
        i := i + 2;
      }
    }
    assert s[|s|..] == [];
  }

  lemma DecodedStep(s: string, i: nat, out: string)
    requires i < |s|
    ensures s[i] != '\\' ==> out + Decoded(s[i..]) == out + [s[i]] + Decoded(s[i + 1..])
    ensures s[i] == '\\' && i + 1 == |s| ==> out + Decoded(s[i..]) == out + "\\" + Decoded(s[i + 1..])
    ensures s[i] == '\\' && i + 1 < |s| ==> out + Decoded(s[i..]) == out + Unescape(s[i + 1]) + Decoded(s[i + 2..])
  {
    assert s[i..][1..] == s[i + 1..];
    if i + 1 < |s| { assert s[i..][2..] == s[i + 2..]; }
  }

  /** Decoding undoes both ways of escaping, for every string. */
  lemma {:induction false} DecodeUndoesEscape(s: string, block: bool)
    ensures Decoded(Escaped(s, block)) == s
  {
    if s != [] {
      var u, rest := Unit(s[0], |s| > 1 && s[1] == '(', block), Escaped(s[1..], block);
      DecodeUndoesEscape(s[1..], block);
      assert (u + rest)[|u|..] == rest;
      assert Decoded(u + rest) == [s[0]] + Decoded(rest);
    }
  }

  /** The characters that must not be left as they are: in either form the backslash and a `$`
      before a `(`; in an ordinary string also quotes, tabs, carriage returns and newlines. */
  predicate Special(s: string, k: nat, block: bool)
    requires k < |s|
  {
    || s[k] == '\\' || (s[k] == '$' && k + 1 < |s| && s[k + 1] == '(')
    || (!block && (s[k] == '\"' || s[k] == '\t' || s[k] == '\r' || s[k] == '\n'))
  }

  function Specials(s: string, block: bool): nat {
    if s == [] then 0 else (if Special(s, 0, block) then 1 else 0) + Specials(s[1..], block)
  }

  /** Those are written as two characters and all others as they are, so that nothing else is
      escaped; an ordinary string's text stays on one line. */
  lemma {:induction false} EscapesOnlySpecials(s: string, block: bool)
    ensures |Escaped(s, block)| == |s| + Specials(s, block)
    ensures Specials(s, block) == 0 ==> Escaped(s, block) == s
    ensures !block ==> forall c :: c in Escaped(s, block) ==> c != '\t' && c != '\r' && c != '\n'
  {
    if s != [] {
      EscapesOnlySpecials(s[1..], block);
      assert s == [s[0]] + s[1..];
    }
  }

  /** Each backslash, taken with the character behind it, starts no known escape. */
  predicate NoEscapes(s: string) {
    if s == [] then true
    else if s[0] != '\\' then NoEscapes(s[1..])
    else |s| == 1 || (s[1] !in "ntr\"\\$" && NoEscapes(s[2..]))
  }

  /** Unknown escapes, and a backslash at the end, are kept. */
  lemma {:induction false} UnknownEscapesStay(s: string)
    requires NoEscapes(s)
    ensures Decoded(s) == s
  {
    if s != [] {
      if s[0] != '\\' {
        UnknownEscapesStay(s[1..]);
      } else if |s| > 1 {
        UnknownEscapesStay(s[2..]);
        assert s == [s[0], s[1]] + s[2..];
      }
    }
  }
}
