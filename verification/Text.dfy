/** The string operations that several components share, on ASCII letters. */
module Text {
  function LowerChar(c: char): char {
    if 'A' <= c <= 'Z' then c + ' ' else c
  }

  /** `s.lower()` */
  function Lower(s: string): (r: string)
    ensures |r| == |s|
  {
    if s == "" then "" else [LowerChar(s[0])] + Lower(s[1..])
  }

  predicate IsSpace(c: char) {
    9 <= c as int <= 13 || 28 <= c as int <= 32
  }

  function TrimLeft(s: string): string {
    if s != "" && IsSpace(s[0]) then TrimLeft(s[1..]) else s
  }

  function TrimRight(s: string): string
    decreases |s|
  {
    if s != "" && IsSpace(s[|s| - 1]) then TrimRight(s[..|s| - 1]) else s
  }

  /** `s.strip()` */
  function Trim(s: string): string {
    TrimRight(TrimLeft(s))
  }

  /** Lower case: the letters from A (65) to Z (90) become those from a to z, in place; nothing else changes. */
  lemma {:induction false} LowerIs(s: string, i: nat)
    requires i < |s|
    ensures Lower(s)[i] as int == s[i] as int + if 65 <= s[i] as int <= 90 then 32 else 0
  {
    if i > 0 { LowerIs(s[1..], i - 1); }
  }

  /** White space: tab to carriage return, the four separators, and the blank. */
  predicate AllWhite(s: string) {
    forall i | 0 <= i < |s| :: s[i] as int in {9, 10, 11, 12, 13, 28, 29, 30, 31, 32}
  }

  lemma {:induction false} TrimLeftIs(s: string) returns (u: string)
    ensures s == u + TrimLeft(s) && AllWhite(u)
    ensures TrimLeft(s) != "" ==> !AllWhite([TrimLeft(s)[0]])
  {
    if s != "" && IsSpace(s[0]) {
      var rest := TrimLeftIs(s[1..]);
      u := [s[0]] + rest;
      assert s == [s[0]] + s[1..];
    } else {
      u := "";
      assert s != "" ==> [s[0]][0] == s[0];
    }
  }

  lemma {:induction false} TrimRightIs(s: string) returns (w: string)
    ensures s == TrimRight(s) + w && AllWhite(w)
    ensures TrimRight(s) != "" ==> !AllWhite([TrimRight(s)[|TrimRight(s)| - 1]])
    decreases |s|
  {
    if s != "" && IsSpace(s[|s| - 1]) {
      var rest := TrimRightIs(s[..|s| - 1]);
      w := rest + [s[|s| - 1]];
      assert s == s[..|s| - 1] + [s[|s| - 1]];
    } else {
      w := "";
      assert s != "" ==> [s[|s| - 1]][0] == s[|s| - 1];
    }
  }

  /** Trimming takes white space away at both ends, all of it and nothing else. */
  lemma TrimIs(s: string) returns (u: string, w: string)
    ensures s == u + Trim(s) + w && AllWhite(u) && AllWhite(w)
    ensures Trim(s) != "" ==> !AllWhite([Trim(s)[0]]) && !AllWhite([Trim(s)[|Trim(s)| - 1]])
  {
    hide TrimLeft, TrimRight, AllWhite;
    u := TrimLeftIs(s);
    w := TrimRightIs(TrimLeft(s));
    assert Trim(s) != "" ==> Trim(s)[0] == TrimLeft(s)[0];
  }

  /** `part in s` */
  predicate Contains(s: string, part: string) {
    exists i | 0 <= i <= |s| :: part <= s[i..]
  }

  /** `a <= b` on strings, by code points */
  predicate Lex(a: string, b: string) {
    a == "" || (b != "" && (a[0] < b[0] || (a[0] == b[0] && Lex(a[1..], b[1..]))))
  }

  lemma {:induction false} LexTotal(a: string, b: string)
    ensures Lex(a, b) || Lex(b, a)
    ensures Lex(a, b) && Lex(b, a) ==> a == b
  {
    if a != "" && b != "" && a[0] == b[0] {
      LexTotal(a[1..], b[1..]);
      assert a == [a[0]] + a[1..] && b == [b[0]] + b[1..];
    }
  }

  lemma {:induction false} LexTransitive(a: string, b: string, c: string)
    requires Lex(a, b) && Lex(b, c)
    ensures Lex(a, c)
  {
    if a != "" && a[0] == b[0] && b[0] == c[0] {
      LexTransitive(a[1..], b[1..], c[1..]);
    }
  }
}
