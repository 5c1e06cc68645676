/** Stand-ins for the parts of Go's standard library whose behaviour the
    service relies on: error-or-value results, `strings.Join`,
    `strings.Split` with a one-character separator, `strings.TrimSpace`,
    decimal and `%v` formatting, and `encoding/base64.StdEncoding`. */
module GoLib {

  /** A value or Go's non-nil `error`, reduced to its message. */
  datatype Result<T> = Ok(value: T) | Err(msg: string)

  datatype Option<T> = None | Some(value: T)

  type byte = b: int | 0 <= b < 256

  // ---------------------------------------------------------------------
  // strings.Join

  function Join(parts: seq<string>, sep: string): string
  {
    if |parts| == 0 then ""
    else if |parts| == 1 then parts[0]
    else parts[0] + sep + Join(parts[1..], sep)
  }

  /** `n` copies of `s`. */
  function Repeat(s: string, n: nat): (r: seq<string>)
    ensures |r| == n
    ensures forall i :: 0 <= i < n ==> r[i] == s
  {
    if n == 0 then [] else Repeat(s, n - 1) + [s]
  }

  /** Number of occurrences of `c` in `s`. */
  function Occurrences(s: string, c: char): nat
  {
    if |s| == 0 then 0 else (if s[0] == c then 1 else 0) + Occurrences(s[1..], c)
  }

  lemma {:induction false} OccurrencesAppend(s: string, t: string, c: char)
    ensures Occurrences(s + t, c) == Occurrences(s, c) + Occurrences(t, c)
  {
    if |s| > 0 {
      assert (s + t)[1..] == s[1..] + t;
      OccurrencesAppend(s[1..], t, c);
    } else {
      assert s + t == t;
    }
  }

  /** Joining `n` copies of a group that holds `k` occurrences of `c`, with a
      separator that holds none, gives `n * k` occurrences. */
  lemma {:induction false} OccurrencesJoinRepeat(group: string, sep: string, n: nat, c: char)
    requires Occurrences(sep, c) == 0
    ensures Occurrences(Join(Repeat(group, n), sep), c) == n * Occurrences(group, c)
  {
    var k := Occurrences(group, c);
    var r := Repeat(group, n);
    if n == 1 {
      assert Join(r, sep) == group;
    } else if n >= 2 {
      assert r[1..] == Repeat(group, n - 1);
      assert Join(r, sep) == group + sep + Join(r[1..], sep);
      OccurrencesJoinRepeat(group, sep, n - 1, c);
      OccurrencesAppend(group, sep, c);
      OccurrencesAppend(group + sep, Join(r[1..], sep), c);
      assert (n - 1) * k + k == n * k;
    }
  }

  // ---------------------------------------------------------------------
  // strings.Split(s, sep) for a separator of one character

  /** Go returns one more piece than there are separators, so an empty
      input gives `[""]` and adjacent separators give empty pieces. */
  function Split(s: string, sep: char): (parts: seq<string>)
    ensures |parts| >= 1
    ensures forall i :: 0 <= i < |parts| ==> sep !in parts[i]
  {
    if |s| == 0 then [""]
    else
      var rest := Split(s[1..], sep);
      if s[0] == sep then [""] + rest
      else [[s[0]] + rest[0]] + rest[1..]
  }

  lemma {:induction false} SplitCount(s: string, sep: char)
    ensures |Split(s, sep)| == Occurrences(s, sep) + 1
  {
    if |s| > 0 {
      SplitCount(s[1..], sep);
    }
  }

  /** Splitting and joining again with the same separator gives back the input. */
  lemma {:induction false} SplitJoin(s: string, sep: char)
    ensures Join(Split(s, sep), [sep]) == s
  {
    if |s| > 0 {
      var rest := Split(s[1..], sep);
      SplitJoin(s[1..], sep);
      if s[0] == sep {
        assert ([""] + rest)[1..] == rest;
        assert s == [sep] + s[1..];
      } else {
        var parts := [[s[0]] + rest[0]] + rest[1..];
        if |rest| == 1 {
          assert Join(rest, [sep]) == rest[0];
        } else {
          assert parts[1..] == rest[1..];
          assert Join(rest, [sep]) == rest[0] + [sep] + Join(rest[1..], [sep]);
        }
        assert s == [s[0]] + s[1..];
      }
    }
  }

  // ---------------------------------------------------------------------
  // strings.TrimSpace

  /** unicode.IsSpace: the ASCII white space, NEL, NBSP and the Unicode
      space separators. */
  predicate IsSpace(c: char)
  {
    c == ' ' || c == '\t' || c == '\n' || c == '\U{000B}' || c == '\U{000C}' || c == '\r'
    || c == '\U{0085}' || c == '\U{00A0}' || c == '\U{1680}'
    || ('\U{2000}' <= c <= '\U{200A}') || c == '\U{2028}' || c == '\U{2029}'
    || c == '\U{202F}' || c == '\U{205F}' || c == '\U{3000}'
  }

  function TrimLeft(s: string): (r: string)
    ensures |r| <= |s| && r == s[|s| - |r|..]
    ensures |r| > 0 ==> !IsSpace(r[0])
    ensures forall i :: 0 <= i < |s| - |r| ==> IsSpace(s[i])
  {
    if |s| > 0 && IsSpace(s[0]) then TrimLeft(s[1..]) else s
  }

  function TrimRight(s: string): (r: string)
    ensures |r| <= |s| && r == s[..|r|]
    ensures |r| > 0 ==> !IsSpace(r[|r| - 1])
    ensures forall i :: |r| <= i < |s| ==> IsSpace(s[i])
  {
    if |s| > 0 && IsSpace(s[|s| - 1]) then TrimRight(s[..|s| - 1]) else s
  }

  /** The slice of `s` left after dropping leading and trailing white space. */
  function TrimSpace(s: string): string
  {
    TrimRight(TrimLeft(s))
  }

  /** TrimSpace keeps a contiguous slice whose ends are not white space and
      removes only white space around it. */
  lemma TrimSpaceSlice(s: string) returns (lo: nat, hi: nat)
    ensures lo <= hi <= |s| && TrimSpace(s) == s[lo..hi]
    ensures forall i :: 0 <= i < lo ==> IsSpace(s[i])
    ensures forall i :: hi <= i < |s| ==> IsSpace(s[i])
    ensures lo < hi ==> !IsSpace(s[lo]) && !IsSpace(s[hi - 1])
  {
    var l := TrimLeft(s);
    var r := TrimRight(l);
    lo := |s| - |l|;
    hi := lo + |r|;
    assert l == s[lo..];
    assert r == s[lo..hi] by {
      assert r == l[..|r|];
    }
    assert forall i :: hi <= i < |s| ==> IsSpace(s[i]) by {
      forall i | hi <= i < |s|
        ensures IsSpace(s[i])
      {
        assert s[i] == l[i - lo];
      }
    }
    assert lo < hi ==> !IsSpace(s[lo]) && !IsSpace(s[hi - 1]) by {
      if lo < hi {
        assert s[lo] == l[0] == r[0];
        assert s[hi - 1] == r[|r| - 1];
      }
    }
  }

  lemma TrimSpaceIdempotent(s: string)
    ensures TrimSpace(TrimSpace(s)) == TrimSpace(s)
  {
    var t := TrimSpace(s);
    assert TrimLeft(t) == t;
  }

  // ---------------------------------------------------------------------
  // Decimal formatting (`%d`) and `%v` of a []string

  function DigitChar(d: nat): (c: char)
    requires d < 10
  {
    ('0' as int + d) as char
  }

  function Itoa(n: nat): (s: string)
    ensures |s| >= 1
    ensures forall i :: 0 <= i < |s| ==> '0' <= s[i] <= '9'
  {
    if n < 10 then [DigitChar(n)] else Itoa(n / 10) + [DigitChar(n % 10)]
  }

  /** Reads a string of decimal digits back. */
  function DecimalValue(s: string): nat
    requires forall i :: 0 <= i < |s| ==> '0' <= s[i] <= '9'
  {
    if |s| == 0 then 0 else 10 * DecimalValue(s[..|s| - 1]) + (s[|s| - 1] as int - '0' as int)
  }

  lemma {:induction false} ItoaRoundTrip(n: nat)
    ensures DecimalValue(Itoa(n)) == n
  {
    if n >= 10 {
      var s := Itoa(n);
      assert s[..|s| - 1] == Itoa(n / 10);
      ItoaRoundTrip(n / 10);
    }
  }

  /** `fmt.Sprintf("%v", ids)` for a []string: "[a b c]". */
  function FormatList(ids: seq<string>): string
  {
    "[" + Join(ids, " ") + "]"
  }

  // ---------------------------------------------------------------------
  // encoding/base64.StdEncoding (section 4 of RFC 4648, with padding)

  function Sextet(v: nat): (c: char)
    requires v < 64
  {
    if v < 26 then ('A' as int + v) as char
    else if v < 52 then ('a' as int + (v - 26)) as char
    else if v < 62 then ('0' as int + (v - 52)) as char
    else if v == 62 then '+'
    else '/'
  }

  predicate IsSextetChar(c: char)
  {
    'A' <= c <= 'Z' || 'a' <= c <= 'z' || '0' <= c <= '9' || c == '+' || c == '/'
  }

  function SextetValue(c: char): (v: nat)
    requires IsSextetChar(c)
    ensures v < 64
  {
    if 'A' <= c <= 'Z' then c as int - 'A' as int
    else if 'a' <= c <= 'z' then c as int - 'a' as int + 26
    else if '0' <= c <= '9' then c as int - '0' as int + 52
    else if c == '+' then 62
    else 63
  }

  lemma SextetInverse(v: nat)
    requires v < 64
    ensures IsSextetChar(Sextet(v)) && SextetValue(Sextet(v)) == v
  {
  }

  /** The four characters for a whole group of three bytes. */
  function EncodeGroup(x: byte, y: byte, z: byte): (s: string)
    ensures |s| == 4
  {
    [Sextet(x / 4), Sextet((x % 4) * 16 + y / 16), Sextet((y % 16) * 4 + z / 64), Sextet(z % 64)]
  }

  /** The padded group for a tail of one or two bytes. */
  function EncodeTail(tail: seq<byte>): (s: string)
    requires 1 <= |tail| <= 2
    ensures |s| == 4
  {
    if |tail| == 1 then [Sextet(tail[0] / 4), Sextet((tail[0] % 4) * 16), '=', '=']
    else [Sextet(tail[0] / 4), Sextet((tail[0] % 4) * 16 + tail[1] / 16), Sextet((tail[1] % 16) * 4), '=']
  }

  /** Encodes whole groups of three bytes, then the one- or two-byte tail
      with '=' padding. */
  function Base64Encode(b: seq<byte>): (s: string)
    decreases |b|
  {
    if |b| == 0 then ""
    else if |b| < 3 then EncodeTail(b)
    else EncodeGroup(b[0], b[1], b[2]) + Base64Encode(b[3..])
  }

  function ToByte(v: int): byte
    requires 0 <= v < 256
  {
    v
  }

  /** The bytes of one group of four characters, None when it is malformed. */
  function DecodeGroup(g: string): (r: Option<seq<byte>>)
    requires |g| == 4
  {
    if !IsSextetChar(g[0]) || !IsSextetChar(g[1]) then None
    else
      var c0, c1 := SextetValue(g[0]), SextetValue(g[1]);
      if g[2] == '=' && g[3] == '=' then Some([ToByte(c0 * 4 + c1 / 16)])
      else if !IsSextetChar(g[2]) then None
      else
        var c2 := SextetValue(g[2]);
        if g[3] == '=' then Some([ToByte(c0 * 4 + c1 / 16), ToByte((c1 % 16) * 16 + c2 / 4)])
        else if !IsSextetChar(g[3]) then None
        else
          var c3 := SextetValue(g[3]);
          Some([ToByte(c0 * 4 + c1 / 16), ToByte((c1 % 16) * 16 + c2 / 4), ToByte((c2 % 4) * 64 + c3)])
  }

  /** Decodes a padded standard-alphabet string; None for anything that is
      not a sequence of well-formed four-character groups with padding only
      in the last one. */
  function Base64Decode(s: string): (r: Option<seq<byte>>)
    decreases |s|
  {
    if |s| == 0 then Some([])
    else if |s| < 4 then None
    else if |s| == 4 then DecodeGroup(s)
    else
      match DecodeGroup(s[..4])
      case None => None
      case Some(first) =>
        if |first| < 3 then None
        else
          match Base64Decode(s[4..])
          case None => None
          case Some(rest) => Some(first + rest)
  }

  /** The encoding is four characters for every started group of three bytes. */
  lemma {:induction false} Base64Length(b: seq<byte>)
    ensures |Base64Encode(b)| == 4 * ((|b| + 2) / 3)
  {
    if |b| >= 3 {
      Base64Length(b[3..]);
      assert (|b| + 2) / 3 == (|b[3..]| + 2) / 3 + 1;
    }
  }

  lemma Base64GroupRoundTrip(x: byte, y: byte, z: byte)
    ensures (x / 4) * 4 + ((x % 4) * 16 + y / 16) / 16 == x
    ensures (((x % 4) * 16 + y / 16) % 16) * 16 + ((y % 16) * 4 + z / 64) / 4 == y
    ensures (((y % 16) * 4 + z / 64) % 4) * 64 + z % 64 == z
  {
  }

  lemma TailRoundTrip(tail: seq<byte>)
    requires 1 <= |tail| <= 2
    ensures DecodeGroup(EncodeTail(tail)) == Some(tail)
  {
    if |tail| == 1 {
      OneByteRoundTrip(tail[0]);
      assert tail == [tail[0]];
    } else {
      TwoBytesRoundTrip(tail[0], tail[1]);
      assert tail == [tail[0], tail[1]];
    }
  }

  lemma OneByteRoundTrip(x: byte)
    ensures DecodeGroup(EncodeTail([x])) == Some([x])
  {
    var g := EncodeTail([x]);
    SextetInverse(x / 4);
    SextetInverse((x % 4) * 16);
    assert SextetValue(g[0]) == x / 4 && SextetValue(g[1]) == (x % 4) * 16;
    assert g[2] == '=' && g[3] == '=';
    assert (x / 4) * 4 + ((x % 4) * 16) / 16 == x;
  }

  lemma TwoBytesRoundTrip(x: byte, y: byte)
    ensures DecodeGroup(EncodeTail([x, y])) == Some([x, y])
  {
    var g := EncodeTail([x, y]);
    var c0, c1, c2 := x / 4, (x % 4) * 16 + y / 16, (y % 16) * 4;
    SextetInverse(c0);
    SextetInverse(c1);
    SextetInverse(c2);
    assert SextetValue(g[0]) == c0 && SextetValue(g[1]) == c1 && SextetValue(g[2]) == c2;
    assert g[2] != '=' && g[3] == '=';
    Base64GroupRoundTrip(x, y, 0);
  }

  lemma GroupRoundTrip(x: byte, y: byte, z: byte)
    ensures DecodeGroup(EncodeGroup(x, y, z)) == Some([x, y, z])
  {
    var g := EncodeGroup(x, y, z);
    var c0, c1, c2, c3 := x / 4, (x % 4) * 16 + y / 16, (y % 16) * 4 + z / 64, z % 64;
    assert IsSextetChar(g[0]) && SextetValue(g[0]) == c0 by {
      SextetInverse(c0);
    }
    assert IsSextetChar(g[1]) && SextetValue(g[1]) == c1 by {
      SextetInverse(c1);
    }
    assert IsSextetChar(g[2]) && SextetValue(g[2]) == c2 && g[2] != '=' by {
      SextetInverse(c2);
    }
    assert IsSextetChar(g[3]) && SextetValue(g[3]) == c3 && g[3] != '=' by {
      SextetInverse(c3);
    }
    assert c0 * 4 + c1 / 16 == x && (c1 % 16) * 16 + c2 / 4 == y && (c2 % 4) * 64 + c3 == z by {
      Base64GroupRoundTrip(x, y, z);
    }
  }

  /** Decoding an encoding gives back the original bytes. */
  lemma {:induction false} Base64RoundTrip(b: seq<byte>)
    ensures Base64Decode(Base64Encode(b)) == Some(b)
  {
    if 1 <= |b| < 3 {
      TailRoundTrip(b);
    } else if |b| >= 3 {
      var rest := b[3..];
      var g, t := EncodeGroup(b[0], b[1], b[2]), Base64Encode(rest);
      assert Base64Encode(b) == g + t;
      GroupRoundTrip(b[0], b[1], b[2]);
      assert b == [b[0], b[1], b[2]] + rest;
      if |rest| == 0 {
        assert t == [] && g + t == g;
        assert b == [b[0], b[1], b[2]];
        assert Base64Decode(g) == DecodeGroup(g);
      } else {
        Base64RoundTrip(rest);
        assert |t| > 0 by {
          Base64Length(rest);
        }
        DecodeGroupThenRest(g, t);
      }
    }
  }

  /** A full first group followed by a decodable non-empty rest decodes to
      the concatenation. */
  lemma DecodeGroupThenRest(g: string, t: string)
    requires |g| == 4 && |t| > 0
    requires DecodeGroup(g).Some? && |DecodeGroup(g).value| == 3 && Base64Decode(t).Some?
    ensures Base64Decode(g + t) == Some(DecodeGroup(g).value + Base64Decode(t).value)
  {
    var s := g + t;
    assert s[..4] == g && s[4..] == t;
  }
}
