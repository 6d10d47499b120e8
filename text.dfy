/** The pieces of Go's strings, strconv and path packages that the migration engine relies on,
    stated over Dafny strings (sequences of characters). */
module Text {
  import opened Base

  /** unicode.IsSpace: the ASCII white space characters, U+0085, U+00A0 and the other
      characters with the Unicode White_Space property. */
  predicate IsSpace(c: char) {
    c == ' ' || c == '\t' || c == '\n' || c == '\r' || c == '\U{000B}' || c == '\U{000C}'
    || c == '\U{0085}' || c == '\U{00A0}' || c == '\U{1680}'
    || ('\U{2000}' <= c <= '\U{200A}')
    || c == '\U{2028}' || c == '\U{2029}' || c == '\U{202F}' || c == '\U{205F}' || c == '\U{3000}'
  }

  predicate AllSpace(s: string) {
    forall k :: 0 <= k < |s| ==> IsSpace(s[k])
  }

  /** strings.TrimLeftFunc(s, unicode.IsSpace). */
  function TrimLeft(s: string): string {
    if s != [] && IsSpace(s[0]) then TrimLeft(s[1..]) else s
  }

  /** TrimLeft cuts white space off the front and stops at the first other character. */
  lemma {:induction false} TrimLeftCuts(s: string)
    ensures var r := TrimLeft(s);
      |r| <= |s| && r == s[|s| - |r|..] && (r != [] ==> !IsSpace(r[0])) && AllSpace(s[..|s| - |r|])
  {
    if s != [] && IsSpace(s[0]) {
      TrimLeftCuts(s[1..]);
      var r := TrimLeft(s[1..]);
      var cut := s[..|s| - |r|];
      assert cut == [s[0]] + s[1..][..|s[1..]| - |r|];
      forall k | 0 <= k < |cut|
        ensures IsSpace(cut[k])
      {
        if k > 0 {
          assert cut[k] == s[1..][..|s[1..]| - |r|][k - 1];
        }
      }
    }
  }

  /** strings.TrimRightFunc(s, unicode.IsSpace). */
  function TrimRight(s: string): string {
    if s != [] && IsSpace(s[|s| - 1]) then TrimRight(s[..|s| - 1]) else s
  }

  /** TrimRight cuts white space off the end and stops at the last other character. */
  lemma {:induction false} TrimRightCuts(s: string)
    ensures var r := TrimRight(s);
      |r| <= |s| && r == s[..|r|] && (r != [] ==> !IsSpace(r[|r| - 1])) && AllSpace(s[|r|..])
  {
    if s != [] && IsSpace(s[|s| - 1]) {
      var init := s[..|s| - 1];
      TrimRightCuts(init);
      var r := TrimRight(init);
      var cut := s[|r|..];
      assert cut == init[|r|..] + [s[|s| - 1]];
      forall k | 0 <= k < |cut|
        ensures IsSpace(cut[k])
      {
        if k < |cut| - 1 {
          assert cut[k] == init[|r|..][k];
        }
      }
    }
  }

  /** strings.TrimSpace. */
  function TrimSpace(s: string): string {
    TrimRight(TrimLeft(s))
  }

  /** TrimSpace leaves no white space at either end, and leaves nothing exactly when s is
      all white space. */
  lemma TrimSpaceEnds(s: string)
    ensures var r := TrimSpace(s);
      (r != [] ==> !IsSpace(r[0]) && !IsSpace(r[|r| - 1])) && (r == [] <==> AllSpace(s))
  {
    var l := TrimLeft(s);
    var r := TrimRight(l);
    TrimLeftCuts(s);
    TrimRightCuts(l);
    assert l[0..] == l && s[..|s| - 0] == s;
    assert l != [] ==> l[0] == s[|s| - |l|];
    assert r != [] ==> r[0] == l[0];
    assert r == [] ==> l == [];
  }

  /** TrimSpace only cuts: a character absent from s is absent from the result. */
  lemma TrimSpaceKeepsOut(s: string, c: char)
    requires c !in s
    ensures c !in TrimSpace(s)
  {
    var l := TrimLeft(s);
    var r := TrimRight(l);
    TrimLeftCuts(s);
    TrimRightCuts(l);
    forall k | 0 <= k < |r|
      ensures r[k] != c
    {
      assert r[k] == l[k] == s[|s| - |l| + k];
    }
  }

  /** The pieces of strings.Split(s, [sep]): every piece is free of sep and there is always at
      least one piece (Split("", ";") is [""]). */
  function Split(s: string, sep: char): (r: seq<string>)
    ensures |r| >= 1
    ensures forall k :: 0 <= k < |r| ==> sep !in r[k]
  {
    if s == [] then [""]
    else if s[0] == sep then [""] + Split(s[1..], sep)
    else
      var rest := Split(s[1..], sep);
      [[s[0]] + rest[0]] + rest[1..]
  }

  /** strings.Join(pieces, [sep]), the inverse of Split. */
  function Join(pieces: seq<string>, sep: char): string
    requires |pieces| >= 1
  {
    if |pieces| == 1 then pieces[0] else pieces[0] + [sep] + Join(pieces[1..], sep)
  }

  /** Splitting loses nothing: joining the pieces back gives the original string. */
  lemma {:induction false} JoinSplit(s: string, sep: char)
    ensures Join(Split(s, sep), sep) == s
  {
    if s == [] {
    } else if s[0] == sep {
      JoinSplit(s[1..], sep);
      assert Split(s, sep) == [""] + Split(s[1..], sep);
      assert Split(s, sep)[1..] == Split(s[1..], sep);
    } else {
      var rest := Split(s[1..], sep);
      JoinSplit(s[1..], sep);
      var r := Split(s, sep);
      assert r == [[s[0]] + rest[0]] + rest[1..];
      if |rest| == 1 {
        assert r == [[s[0]] + rest[0]];
      } else {
        assert r[1..] == rest[1..];
        assert Join(rest, sep) == rest[0] + [sep] + Join(rest[1..], sep);
      }
    }
  }

  /** unicode.ToLower on the characters that matter for comparisons with ASCII words: the
      ASCII capitals, the Kelvin sign (which lowers to 'k') and U+0130 (which lowers to 'i'). */
  function LowerChar(c: char): char {
    if 'A' <= c <= 'Z' then (c as int + 32) as char
    else if c == '\U{212A}' then 'k'
    else if c == '\U{0130}' then 'i'
    else c
  }

  /** strings.ToLower, character by character. */
  function Lower(s: string): (r: string)
    ensures |r| == |s|
    ensures forall k :: 0 <= k < |s| ==> r[k] == LowerChar(s[k])
  {
    seq(|s|, k requires 0 <= k < |s| => LowerChar(s[k]))
  }

  lemma LowerIdempotent(s: string)
    ensures Lower(Lower(s)) == Lower(s)
  {
  }

  /** strings.HasSuffix. */
  predicate EndsWith(s: string, suffix: string) {
    |s| >= |suffix| && s[|s| - |suffix|..] == suffix
  }

  /** path.Ext: the suffix of p that starts at the last '.' of its final slash-separated
      element, or "" when that element has no dot. */
  function Ext(p: string): (r: string)
    ensures |r| <= |p| && r == p[|p| - |r|..]
    ensures r != [] ==> r[0] == '.'
    ensures forall k :: 0 <= k < |r| ==> r[k] != '/'
    ensures forall k :: 1 <= k < |r| ==> r[k] != '.'
  {
    if |p| == 0 || p[|p| - 1] == '/' then ""
    else if p[|p| - 1] == '.' then "."
    else
      var e := Ext(p[..|p| - 1]);
      if e == "" then "" else e + [p[|p| - 1]]
  }

  /** path.Ext when the last dot of p is at index i and no slash follows it. */
  lemma {:induction false} ExtFromLastDot(p: string, i: nat)
    requires i < |p| && p[i] == '.'
    requires forall k :: i < k < |p| ==> p[k] != '.' && p[k] != '/'
    ensures Ext(p) == p[i..]
    decreases |p| - i
  {
    if i < |p| - 1 {
      var q := p[..|p| - 1];
      ExtFromLastDot(q, i);
      assert q[i..] + [p[|p| - 1]] == p[i..];
    }
  }

  /** The extension test of the migration scanner: path.Ext lowered is ".sql" exactly when the
      last four characters, lowered, are ".sql". */
  lemma SqlExt(p: string)
    ensures Lower(Ext(p)) == ".sql" <==> |p| >= 4 && Lower(p[|p| - 4..]) == ".sql"
  {
    if Lower(Ext(p)) == ".sql" {
      SqlExtSuffix(p);
    }
    if |p| >= 4 && Lower(p[|p| - 4..]) == ".sql" {
      SqlSuffixExt(p);
    }
  }

  lemma SqlExtSuffix(p: string)
    requires Lower(Ext(p)) == ".sql"
    ensures |p| >= 4 && Lower(p[|p| - 4..]) == ".sql"
  {
    var e := Ext(p);
    assert |e| == 4;
    assert p[|p| - 4..] == e;
  }

  /** Only '.' lowers to '.', and only letters lower to letters. */
  lemma LowerCharPunctuation(c: char)
    ensures LowerChar(c) == '.' ==> c == '.'
    ensures 'a' <= LowerChar(c) <= 'z' ==> c != '.' && c != '/'
  {
  }

  lemma SqlTailChar(p: string, k: int)
    requires |p| >= 4 && Lower(p[|p| - 4..]) == ".sql"
    requires |p| - 4 <= k < |p|
    ensures k == |p| - 4 <==> p[k] == '.'
    ensures p[k] != '/'
  {
    var t := p[|p| - 4..];
    var j := k - (|p| - 4);
    assert p[k] == t[j];
    assert Lower(t)[j] == LowerChar(t[j]);
    if j > 0 {
      assert 'a' <= ".sql"[j] <= 'z';
    }
    LowerCharPunctuation(t[j]);
  }

  lemma SqlSuffixExt(p: string)
    requires |p| >= 4 && Lower(p[|p| - 4..]) == ".sql"
    ensures Lower(Ext(p)) == ".sql"
  {
    var n := |p|;
    SqlTailChar(p, n - 4);
    forall k | n - 4 < k < n
      ensures p[k] != '.' && p[k] != '/'
    {
      SqlTailChar(p, k);
    }
    ExtFromLastDot(p, n - 4);
  }

  /** path.Join of a directory and a bare file name. */
  function PathJoin(dir: string, name: string): (r: string)
    ensures EndsWith(r, name)
  {
    if dir == "" then name else dir + "/" + name
  }

  const MaxInt64: int := 0x7FFF_FFFF_FFFF_FFFF
  const MinInt64: int := -0x8000_0000_0000_0000

  predicate IsDigit(c: char) { '0' <= c <= '9' }

  predicate AllDigits(s: string) {
    forall k :: 0 <= k < |s| ==> IsDigit(s[k])
  }

  /** The value of a string of decimal digits, most significant first. */
  function DecimalValue(ds: string): (v: nat)
    requires AllDigits(ds)
  {
    if ds == [] then 0 else DecimalValue(ds[..|ds| - 1]) * 10 + (ds[|ds| - 1] as int - '0' as int)
  }

  /** strconv.Atoi in base 10: an optional sign followed by at least one decimal digit, whose
      value fits in a 64-bit int. Anything else is an error (None). */
  function Atoi(s: string): (r: Option<int>)
    ensures r.Some? ==> MinInt64 <= r.value <= MaxInt64
    ensures r.Some? ==> |s| > 0 && (IsDigit(s[0]) || s[0] == '+' || s[0] == '-')
  {
    var signed := |s| > 0 && (s[0] == '+' || s[0] == '-');
    var digits := if signed then s[1..] else s;
    if |digits| == 0 || !AllDigits(digits) then None
    else
      var v: int := if signed && s[0] == '-' then -(DecimalValue(digits) as int) else DecimalValue(digits);
      if MinInt64 <= v <= MaxInt64 then Some(v) else None
  }

  /** strconv.Itoa for naturals: the canonical decimal spelling of n. */
  function DecimalString(n: nat): (s: string)
    ensures |s| >= 1 && AllDigits(s)
  {
    if n < 10 then [('0' as int + n) as char]
    else DecimalString(n / 10) + [('0' as int + n % 10) as char]
  }

  lemma {:induction false} DecimalValueOfString(n: nat)
    ensures DecimalValue(DecimalString(n)) == n
  {
    if n >= 10 {
      DecimalValueOfString(n / 10);
      var s := DecimalString(n);
      assert s[..|s| - 1] == DecimalString(n / 10);
    }
  }

  /** Atoi reads back what Itoa writes, for every value that fits in a 64-bit int. */
  lemma AtoiDecimalString(n: nat)
    requires n <= MaxInt64
    ensures Atoi(DecimalString(n)) == Some(n)
  {
    DecimalValueOfString(n);
  }
}
