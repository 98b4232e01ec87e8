/** What escaping lone surrogates does to a public text. */
module EscapedTexts {
  import opened Wrappers
  import opened Values
  import opened PublicFields

  function SurrogateCount(t: Text): nat {
    if t == [] then 0 else (if IsSurrogate(t[0]) then 1 else 0) + SurrogateCount(t[1..])
  }

  /** Each lone surrogate costs five more characters, and the escaped text must look harmless too. */
  predicate EscapeFits(rules: Rules, t: Text, limit: nat) {
    |t| + 5 * SurrogateCount(t) <= limit && !rules.unsafe(UnicodeSafe(t))
  }

  lemma {:induction false} EscapedText(t: Text)
    ensures |UnicodeSafe(t)| == |t| + 5 * SurrogateCount(t)
    ensures (forall c :: c in t ==> Printable(c)) ==> forall c :: c in UnicodeSafe(t) ==> Printable(c)
  {
    if t != [] {
      EscapedText(t[1..]);
      var head := if IsSurrogate(t[0]) then Escape(t[0]) else [t[0]];
      assert UnicodeSafe(t) == head + UnicodeSafe(t[1..]);
      assert forall c :: c in UnicodeSafe(t) ==> c in head || c in UnicodeSafe(t[1..]);
      if IsSurrogate(t[0]) {
        EscapePrintable(t[0]);
      }
    }
  }

  predicate Printable(c: CodePoint) {
    c >= 32 || c in {9, 10, 13}
  }

  lemma EscapePrintable(c: CodePoint)
    requires IsSurrogate(c)
    ensures forall d :: d in Escape(c) ==> Printable(d)
  {
    forall d | d in Escape(c) ensures Printable(d) {
      var i :| 0 <= i < 6 && Escape(c)[i] == d;
    }
  }

  /** A public text is public again once escaped exactly when its escape fits. */
  lemma PublicOnceEscaped(rules: Rules, t: Text, limit: nat)
    requires IsPublic(rules, t, limit)
    ensures IsPublic(rules, UnicodeSafe(t), limit) <==> EscapeFits(rules, t, limit)
  {
    EscapedText(t);
    assert forall c :: c in t ==> Printable(c);
  }

  /** The value of an upper-case hexadecimal digit. */
  function UpperHexValue(d: CodePoint): int {
    if '0' as int <= d <= '9' as int then d - '0' as int
    else if 'A' as int <= d <= 'F' as int then d - 'A' as int + 10 else -1
  }

  lemma DigitReads(n: int)
    requires 0 <= n < 16
    ensures UpperHexValue(UpperHexDigit(n)) == n
  {
  }

  lemma FourDigits(c: int)
    requires 0 <= c < 65_536
    ensures ((c / 4096 * 16 + c / 256 % 16) * 16 + c / 16 % 16) * 16 + c % 16 == c
  {
    assert c / 256 == c / 4096 * 16 + c / 256 % 16;
    assert c / 16 == c / 256 * 16 + c / 16 % 16;
  }

  /** An escape is a backslash, a `u`, and four digits that spell the surrogate. */
  lemma EscapeSpells(c: CodePoint)
    requires IsSurrogate(c)
    ensures var e := Escape(c);
      && e[0] == '\\' as int && e[1] == 'u' as int
      && ((UpperHexValue(e[2]) * 16 + UpperHexValue(e[3])) * 16 + UpperHexValue(e[4])) * 16 + UpperHexValue(e[5]) == c
  {
    DigitReads(c / 4096);
    DigitReads(c / 256 % 16);
    DigitReads(c / 16 % 16);
    DigitReads(c % 16);
    FourDigits(c);
  }
}
