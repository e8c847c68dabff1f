/** The string operations the server leans on, as Rust's standard library has them. */
module Text {
  import opened Wrappers

  function StripPrefix(s: string, prefix: string): (r: Option<string>)
    ensures r.Some? <==> prefix <= s
    ensures r.Some? ==> s == prefix + r.value
  {
    if prefix <= s then Some(s[|prefix|..]) else None
  }

  predicate EndsWith(s: string, suffix: string) { |suffix| <= |s| && s[|s| - |suffix|..] == suffix }

  /** The characters Unicode calls white space. */
  predicate IsSpace(c: char) {
    || '\t' <= c <= '\r' || c == ' ' || c == '\U{85}' || c == '\U{A0}' || c == '\U{1680}'
    || '\U{2000}' <= c <= '\U{200A}' || c == '\U{2028}' || c == '\U{2029}' || c == '\U{202F}'
    || c == '\U{205F}' || c == '\U{3000}'
  }

  function TrimStart(s: string): (r: string)
    ensures r == "" || !IsSpace(r[0])
    ensures |r| <= |s| && r == s[|s| - |r|..]
    ensures forall i | 0 <= i < |s| - |r| :: IsSpace(s[i])
  {
    if s == "" || !IsSpace(s[0]) then s else TrimStart(s[1..])
  }

  function TrimEnd(s: string): (r: string)
    ensures r == "" || !IsSpace(r[|r| - 1])
    ensures |r| <= |s| && r == s[..|r|]
    ensures forall i | |r| <= i < |s| :: IsSpace(s[i])
  {
    if s == "" || !IsSpace(s[|s| - 1]) then s else TrimEnd(s[..|s| - 1])
  }

  function Trim(s: string): string { TrimEnd(TrimStart(s)) }

  /** The second is the first with an ASCII capital made small. */
  predicate Lowers(c: char, small: char) {
    if 'A' <= c <= 'Z' then small as int - c as int == 'a' as int - 'A' as int else small == c
  }

  function LowerChar(c: char): char {
    if 'A' <= c <= 'Z' then (c as int + 32) as char else c
  }

  function AsciiLower(s: string): (r: string)
    ensures |r| == |s| && forall i | 0 <= i < |s| :: Lowers(s[i], r[i])
  {
    if s == "" then "" else [LowerChar(s[0])] + AsciiLower(s[1..])
  }

  function ReplaceChar(s: string, from: char, to: char): (r: string)
    ensures |r| == |s| && forall i | 0 <= i < |s| :: r[i] == if s[i] == from then to else s[i]
  {
    if s == "" then "" else [if s[0] == from then to else s[0]] + ReplaceChar(s[1..], from, to)
  }

  /** `trim_matches`: every leading and trailing `c` goes. */
  function TrimMatches(s: string, c: char): string {
    if s != "" && s[0] == c then TrimMatches(s[1..], c)
    else if s != "" && s[|s| - 1] == c then TrimMatches(s[..|s| - 1], c)
    else s
  }

  function Split(s: string, separator: char): (parts: seq<string>)
    ensures parts != []
  {
    if s == "" then [""]
    else
      var rest := Split(s[1..], separator);
      if s[0] == separator then [""] + rest else [[s[0]] + rest[0]] + rest[1..]
  }

  function Join(parts: seq<string>, separator: char): string
    requires parts != []
  {
    if |parts| == 1 then parts[0] else parts[0] + [separator] + Join(parts[1..], separator)
  }

  lemma {:induction false} SplitAlone(s: string, separator: char)
    ensures separator !in s ==> Split(s, separator) == [s]
    ensures separator in s ==> |Split(s, separator)| > 1
  {
    if s != "" {
      SplitAlone(s[1..], separator);
      assert s == [s[0]] + s[1..];
    }
  }

  lemma {:induction false} SplitAt(a: string, separator: char, b: string)
    ensures |Split(a + [separator] + b, separator)| == |Split(a, separator)| + |Split(b, separator)|
    ensures separator !in a ==> Split(a + [separator] + b, separator) == [a] + Split(b, separator)
  {
    var all := a + [separator] + b;
    if a == "" {
      assert all[1..] == b;
    } else {
      SplitAt(a[1..], separator, b);
      assert all[1..] == a[1..] + [separator] + b;
      assert a == [a[0]] + a[1..];
    }
  }

  /** Splitting what was joined gives the parts back exactly when none of them
      holds the separator; otherwise it gives more of them. */
  lemma {:induction false} SplitJoin(parts: seq<string>, separator: char)
    requires parts != []
    ensures |Split(Join(parts, separator), separator)| >= |parts|
    ensures (forall part <- parts :: separator !in part) ==> Split(Join(parts, separator), separator) == parts
    ensures |Split(Join(parts, separator), separator)| == |parts| ==> forall part <- parts :: separator !in part
  {
    SplitAlone(parts[0], separator);
    if |parts| > 1 {
      SplitJoin(parts[1..], separator);
      SplitAt(parts[0], separator, Join(parts[1..], separator));
      assert parts == [parts[0]] + parts[1..];
      assert forall part <- parts[1..] :: part in parts;
    }
  }

  /** Joining what was split gives the text back, and no part holds the separator. */
  lemma {:induction false} JoinSplit(s: string, separator: char)
    ensures Join(Split(s, separator), separator) == s
    ensures forall part <- Split(s, separator) :: separator !in part
  {
    if s != "" {
      JoinSplit(s[1..], separator);
      var rest := Split(s[1..], separator);
      if s[0] == separator {
        assert ([""] + rest)[1..] == rest;
        assert "" + [separator] + Join(rest, separator) == s;
      } else {
        var first := [s[0]] + rest[0];
        var all := [first] + rest[1..];
        JoinFirst([s[0]], rest, separator);
        assert rest[0] in rest && forall part <- rest[1..] :: part in rest;
      }
    }
  }

  lemma {:induction false} JoinFirst(before: string, parts: seq<string>, separator: char)
    requires parts != []
    ensures Join([before + parts[0]] + parts[1..], separator) == before + Join(parts, separator)
  {
    var all := [before + parts[0]] + parts[1..];
    if |parts| > 1 {
      assert all[1..] == parts[1..];
      var rest := Join(parts[1..], separator);
      assert (before + parts[0]) + [separator] + rest == before + (parts[0] + [separator] + rest);
    }
  }
}
