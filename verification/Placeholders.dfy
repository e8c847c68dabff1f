/** Renumbering the placeholders of a fragment that joins a larger statement. */
module Placeholders {
  import opened Decimal

  /** One more than the largest `usize` on the 64-bit targets. */
  const USIZE: nat := 0x1_0000_0000_0000_0000

  /** How many leading characters of `s` are digits. */
  function DigitRun(s: string): (n: nat)
    ensures n <= |s| && AllDigits(s[..n])
    ensures n < |s| ==> !IsDigit(s[n])
  {
    if s == "" || !IsDigit(s[0]) then 0
    else
      var n := DigitRun(s[1..]);
      assert s[..n + 1] == [s[0]] + s[1..][..n];
      n + 1
  }

  /** What replaces `$` and the digits after it. A numeral no `usize` holds fails
      to parse, and so does no numeral at all: both leave a bare `$`. The sum
      wraps, as release builds do. */
  function Renumbered(digits: string, offset: nat): string
    requires AllDigits(digits)
  {
    "$" + Numeral(digits, offset)
  }

  function Numeral(digits: string, offset: nat): (s: string)
    requires AllDigits(digits)
    ensures AllDigits(s)
  {
    if digits == "" || Read(digits) >= USIZE then ""
    else Show((Read(digits) + offset) % USIZE)
  }

  /** What a renumbered numeral reads back as. */
  lemma {:induction false} NumeralReads(digits: string, offset: nat)
    requires AllDigits(digits) && digits != "" && Read(digits) < USIZE
    ensures Numeral(digits, offset) != ""
    ensures Read(Numeral(digits, offset)) == (Read(digits) + offset) % USIZE
  {
    ReadShow((Read(digits) + offset) % USIZE);
  }

  lemma {:induction false} NumeralTwice(digits: string, a: nat, b: nat)
    requires AllDigits(digits)
    ensures Numeral(Numeral(digits, a), b) == Numeral(digits, a + b)
  {
    if digits != "" && Read(digits) < USIZE {
      NumeralReads(digits, a);
      ModTwice(Read(digits), a, b);
      var once := Numeral(digits, a);
      assert Numeral(once, b) == Show((Read(once) + b) % USIZE);
    }
  }

  function Shift(sql: string, offset: nat): string {
    if sql == "" then ""
    else if sql[0] != '$' then [sql[0]] + Shift(sql[1..], offset)
    else
      var n := DigitRun(sql[1..]);
      Renumbered(sql[1..][..n], offset) + Shift(sql[1..][n..], offset)
  }

  /** Where the digits that start at `start` end. */
  method EndOfDigits(sql: string, start: nat) returns (end: nat)
    requires start <= |sql|
    ensures start <= end <= |sql|
    ensures end - start == DigitRun(sql[start..])
  {
    end := start;
    while end < |sql| && IsDigit(sql[end])
      invariant start <= end <= |sql|
      invariant DigitRun(sql[start..]) == end - start + DigitRun(sql[end..])
    {
      assert sql[end..][1..] == sql[end + 1..];
      end := end + 1;
    }
  }

  /** The scanner: `$` and its digits are replaced, everything else is copied. */
  method ShiftPlaceholders(sql: string, offset: nat) returns (out: string)
    ensures out == Shift(sql, offset)
  {
    out := "";
    var i := 0;
    while i < |sql|
      invariant 0 <= i <= |sql|
      invariant out + Shift(sql[i..], offset) == Shift(sql, offset)
    {
      if sql[i] != '$' {
        StepOver(sql, i, offset, out);
        out := out + [sql[i]];
        i := i + 1;
      } else {
        var end := EndOfDigits(sql, i + 1);
        StepNumeral(sql, i, end, offset, out);
        out := out + Renumbered(sql[i + 1..end], offset);
        i := end;
      }
    }
  }

  lemma {:induction false} StepOver(sql: string, i: nat, offset: nat, out: string)
    requires i < |sql| && sql[i] != '$'
    ensures out + Shift(sql[i..], offset) == (out + [sql[i]]) + Shift(sql[i + 1..], offset)
  {
    assert sql[i..][1..] == sql[i + 1..];
    Assoc(out, [sql[i]], Shift(sql[i + 1..], offset));
  }

  lemma {:induction false} StepNumeral(sql: string, i: nat, end: nat, offset: nat, out: string)
    requires i < end <= |sql| && sql[i] == '$' && end - i - 1 == DigitRun(sql[i + 1..])
    ensures AllDigits(sql[i + 1..end])
    ensures out + Shift(sql[i..], offset)
         == (out + Renumbered(sql[i + 1..end], offset)) + Shift(sql[end..], offset)
  {
    var rest, n := sql[i + 1..], end - i - 1;
    assert rest[..n] == sql[i + 1..end];
    assert rest[n..] == sql[end..];
    assert sql[i..][1..] == rest;
    Assoc(out, Renumbered(sql[i + 1..end], offset), Shift(sql[end..], offset));
  }

  lemma Assoc(a: string, b: string, c: string)
    ensures a + (b + c) == (a + b) + c
  {
  }

  // ----- What PostgreSQL reads -----

  datatype Token = Text(c: char) | Slot(n: nat)

  /** What a `$` followed by exactly `digits` is. */
  function Opening(digits: string): Token
    requires AllDigits(digits)
  {
    if digits == "" then Text('$') else Slot(Read(digits))
  }

  function Lex(sql: string): seq<Token> {
    if sql == "" then []
    else if sql[0] != '$' then [Text(sql[0])] + Lex(sql[1..])
    else
      var n := DigitRun(sql[1..]);
      [Opening(sql[1..][..n])] + Lex(sql[1..][n..])
  }

  function Moved(t: Token, offset: nat): Token {
    if t.Slot? then Slot(t.n + offset) else t
  }

  function MoveAll(ts: seq<Token>, offset: nat): (r: seq<Token>)
    ensures |r| == |ts|
    ensures forall i | 0 <= i < |ts| :: r[i] == Moved(ts[i], offset)
  {
    if ts == [] then [] else [Moved(ts[0], offset)] + MoveAll(ts[1..], offset)
  }

  /** Every renumbered placeholder is still a `usize`. */
  predicate Fits(ts: seq<Token>, offset: nat) {
    forall i | 0 <= i < |ts| && ts[i].Slot? :: ts[i].n + offset < USIZE
  }

  /** A numeral is read whole when what follows does not extend it. */
  lemma {:induction false} DigitRunOfNumeral(digits: string, rest: string)
    requires AllDigits(digits)
    requires rest == "" || !IsDigit(rest[0])
    ensures DigitRun(digits + rest) == |digits|
  {
    if digits == "" {
      assert digits + rest == rest;
    } else {
      assert (digits + rest)[1..] == digits[1..] + rest;
      DigitRunOfNumeral(digits[1..], rest);
    }
  }

  /** How a `$` and its numeral are taken off the front of a text. */
  lemma {:induction false} TakeNumeral(numeral: string, rest: string)
    requires AllDigits(numeral)
    requires rest == "" || !IsDigit(rest[0])
    ensures var all := "$" + numeral + rest;
      && all[0] == '$'
      && DigitRun(all[1..]) == |numeral|
      && all[1..][..|numeral|] == numeral
      && all[1..][|numeral|..] == rest
  {
    DigitRunOfNumeral(numeral, rest);
    assert ("$" + numeral + rest)[1..] == numeral + rest;
  }

  /** Text after a digit run never starts with a digit, shifted or not. */
  lemma ShiftKeepsBoundary(s: string, offset: nat)
    ensures Shift(s, offset) == "" || !IsDigit(Shift(s, offset)[0]) || (s != "" && IsDigit(s[0]))
  {
  }

  /** Scanning the text renumbers exactly the placeholders, whatever surrounds
      them, and does so if and only if no sum leaves the range of a `usize`. */
  lemma {:induction false} LexShift(sql: string, offset: nat)
    ensures Lex(Shift(sql, offset)) == MoveAll(Lex(sql), offset) <==> Fits(Lex(sql), offset)
    ensures |Lex(Shift(sql, offset))| == |Lex(sql)|
  {
    if sql == "" {
    } else if sql[0] != '$' {
      LexShift(sql[1..], offset);
      var s, t := Shift(sql[1..], offset), Lex(sql[1..]);
      assert ([sql[0]] + s)[1..] == s;
      ConsAgree(Text(sql[0]), Text(sql[0]), Lex(s), t, offset);
    } else {
      var n := DigitRun(sql[1..]);
      var digits, rest := sql[1..][..n], sql[1..][n..];
      LexShift(rest, offset);
      var s, t := Shift(rest, offset), Lex(rest);
      ShiftKeepsBoundary(rest, offset);
      var numeral := Numeral(digits, offset);
      TakeNumeral(numeral, s);
      assert Shift(sql, offset) == "$" + numeral + s;
      SlotsAgree(digits, offset);
      var before, after := Opening(digits), Opening(numeral);
      ConsAgree(before, after, Lex(s), t, offset);
    }
  }

  lemma {:induction false} SlotsAgree(digits: string, offset: nat)
    requires AllDigits(digits)
    ensures Opening(Numeral(digits, offset)) == Moved(Opening(digits), offset)
            <==> Fits([Opening(digits)], offset)
  {
    var before := Opening(digits);
    assert [before][0] == before;
    if digits != "" && Read(digits) < USIZE {
      NumeralReads(digits, offset);
    }
  }

  lemma ConsAgree(before: Token, after: Token, s: seq<Token>, t: seq<Token>, offset: nat)
    requires s == MoveAll(t, offset) <==> Fits(t, offset)
    requires after == Moved(before, offset) <==> Fits([before], offset)
    ensures [after] + s == MoveAll([before] + t, offset) <==> Fits([before] + t, offset)
  {
    assert ([before] + t)[1..] == t;
    assert [after] + s == MoveAll([before] + t, offset) <==> after == Moved(before, offset) && s == MoveAll(t, offset) by {
      var r := MoveAll([before] + t, offset);
      assert r == [Moved(before, offset)] + MoveAll(t, offset);
      if [after] + s == r {
        assert ([after] + s)[0] == r[0] && ([after] + s)[1..] == r[1..];
      }
    }
    assert Fits([before] + t, offset) <==> Fits([before], offset) && Fits(t, offset) by {
      if Fits([before] + t, offset) {
        forall i | 0 <= i < |t| && t[i].Slot? ensures t[i].n + offset < USIZE {
          assert t[i] == ([before] + t)[i + 1];
        }
        assert ([before] + t)[0] == before;
      }
    }
  }

  /** Shifting twice is shifting once by the sum, for every text whatsoever. */
  lemma {:induction false} ShiftTwice(sql: string, a: nat, b: nat)
    ensures Shift(Shift(sql, a), b) == Shift(sql, a + b)
  {
    if sql == "" {
    } else if sql[0] != '$' {
      ShiftTwice(sql[1..], a, b);
      assert ([sql[0]] + Shift(sql[1..], a))[1..] == Shift(sql[1..], a);
    } else {
      var n := DigitRun(sql[1..]);
      var digits, rest := sql[1..][..n], sql[1..][n..];
      ShiftTwice(rest, a, b);
      var s := Shift(rest, a);
      ShiftKeepsBoundary(rest, a);
      var numeral := Numeral(digits, a);
      TakeNumeral(numeral, s);
      assert Shift(sql, a) == "$" + numeral + s;
      NumeralTwice(digits, a, b);
    }
  }

  lemma ModTwice(n: nat, a: nat, b: nat)
    ensures ((n + a) % USIZE + b) % USIZE == (n + a + b) % USIZE
  {
    var q := (n + a) / USIZE;
    assert n + a + b == q * USIZE + ((n + a) % USIZE + b);
  }

  // ----- Binding -----

  /** A statement with its values in place: what the database executes. */
  datatype Piece<P> = Lit(c: char) | Arg(value: P) | Unbound(n: nat)

  function BindOne<P>(t: Token, params: seq<P>): Piece<P> {
    match t
    case Text(c) => Lit(c)
    case Slot(n) => if 1 <= n <= |params| then Arg(params[n - 1]) else Unbound(n)
  }

  function Bind<P>(ts: seq<Token>, params: seq<P>): (r: seq<Piece<P>>)
    ensures |r| == |ts|
    ensures forall i | 0 <= i < |ts| :: r[i] == BindOne(ts[i], params)
  {
    if ts == [] then [] else [BindOne(ts[0], params)] + Bind(ts[1..], params)
  }

  /** Every placeholder names one of `count` parameters. */
  predicate InRange(ts: seq<Token>, count: nat) {
    forall i | 0 <= i < |ts| && ts[i].Slot? :: 1 <= ts[i].n <= count
  }

  lemma {:induction false} BindMoved<P>(ts: seq<Token>, own: seq<P>, before: seq<P>, later: seq<P>)
    requires InRange(ts, |own|)
    ensures Bind(MoveAll(ts, |before|), before + own + later) == Bind(ts, own)
    ensures InRange(MoveAll(ts, |before|), |before + own + later|)
  {
    var moved, final := MoveAll(ts, |before|), before + own + later;
    forall i | 0 <= i < |ts|
      ensures BindOne(moved[i], final) == BindOne(ts[i], own)
    {
      if ts[i].Slot? {
        assert final[ts[i].n + |before| - 1] == own[ts[i].n - 1];
      }
    }
  }

  /** A fragment moved past `before` reads the very values it read on its own,
      whatever is appended later, and never past the end of the final list. */
  lemma {:induction false} BindShift<P>(sql: string, own: seq<P>, before: seq<P>, later: seq<P>)
    requires InRange(Lex(sql), |own|)
    requires |before| + |own| < USIZE
    ensures Bind(Lex(Shift(sql, |before|)), before + own + later) == Bind(Lex(sql), own)
    ensures InRange(Lex(Shift(sql, |before|)), |before + own + later|)
  {
    LexShift(sql, |before|);
    assert Lex(Shift(sql, |before|)) == MoveAll(Lex(sql), |before|);
    BindMoved(Lex(sql), own, before, later);
  }
}
