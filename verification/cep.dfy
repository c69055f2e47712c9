/** The postal-code (CEP) validator both services compile from the regular
    expression `^[0-9]{5}-?[0-9]{3}$`.

    The expression is modelled as data in a small anchored pattern language
    (single-character atoms repeated a fixed number of times or made
    optional), `Matches` gives that language its meaning, and
    `CepPatternExact` proves that the CEP pattern accepts exactly the
    strings described by the reference predicate `IsCep`. */
module Cep {

  /** A single-character matcher: a range class `[lo-hi]` or a literal. */
  datatype Atom = Range(lo: char, hi: char) | Char(c: char)

  predicate Accepts(a: Atom, c: char) {
    match a
    case Range(lo, hi) => lo <= c <= hi
    case Char(d) => c == d
  }

  /** One piece of a pattern: `atom{count}` or `atom?`. */
  datatype Piece = Times(atom: Atom, count: nat) | Maybe(atom: Atom)

  /** `Matches(p, s)` holds when `^p$` matches `s`. The match starts at the
      first character (`^`) and must consume the whole string, because
      without the multiline flag `$` matches only at the end of the text:
      a trailing newline is not skipped. */
  predicate Matches(p: seq<Piece>, s: string)
    decreases |p| + |s|
  {
    if |p| == 0 then
      |s| == 0
    else
      match p[0]
      case Times(a, k) =>
        if k == 0 then Matches(p[1..], s)
        else |s| > 0 && Accepts(a, s[0]) && Matches([Times(a, k - 1)] + p[1..], s[1..])
      case Maybe(a) =>
        || (|s| > 0 && Accepts(a, s[0]) && Matches(p[1..], s[1..]))
        || Matches(p[1..], s)
  }

  const Digit := Range('0', '9')

  /** `[0-9]{5}-?[0-9]{3}` */
  const CepPattern := [Times(Digit, 5), Maybe(Char('-')), Times(Digit, 3)]

  /** `[0-9]` is the ASCII digit range, not Unicode's wider digit class. */
  predicate IsDigit(c: char) {
    '0' <= c <= '9'
  }

  predicate AllDigits(s: string) {
    forall i :: 0 <= i < |s| ==> IsDigit(s[i])
  }

  /** Reference definition: eight ASCII digits, or five digits, a hyphen
      and three digits. */
  predicate IsCep(s: string) {
    || (|s| == 8 && AllDigits(s))
    || (|s| == 9 && s[5] == '-' && AllDigits(s[..5]) && AllDigits(s[6..]))
  }

  /** A piece `atom{k}` at the head of a pattern consumes exactly the next
      `k` characters, each of which the atom must accept. */
  lemma {:induction false} TimesMatches(a: Atom, k: nat, rest: seq<Piece>, s: string)
    ensures Matches([Times(a, k)] + rest, s)
        <==> k <= |s| && (forall i :: 0 <= i < k ==> Accepts(a, s[i])) && Matches(rest, s[k..])
    decreases k
  {
    var p := [Times(a, k)] + rest;
    assert p[1..] == rest;
    if k > 0 {
      if |s| > 0 {
        TimesMatches(a, k - 1, rest, s[1..]);
        if k <= |s| {
          assert s[1..][k - 1..] == s[k..];
        }
        if Matches(p, s) {
          forall i | 0 <= i < k
            ensures Accepts(a, s[i])
          {
            if i > 0 {
              assert s[i] == s[1..][i - 1];
            }
          }
        }
        if k <= |s| && (forall i :: 0 <= i < k ==> Accepts(a, s[i])) && Matches(rest, s[k..]) {
          forall i | 0 <= i < k - 1
            ensures Accepts(a, s[1..][i])
          {
            assert s[1..][i] == s[i + 1];
          }
        }
      }
    }
  }

  /** A piece `atom?` at the head of a pattern consumes one accepted
      character or none. */
  lemma MaybeMatches(a: Atom, rest: seq<Piece>, s: string)
    ensures Matches([Maybe(a)] + rest, s)
        <==> (|s| > 0 && Accepts(a, s[0]) && Matches(rest, s[1..])) || Matches(rest, s)
  {
  }

  /** The regular expression accepts a string exactly when it is a CEP in
      the sense of `IsCep`. */
  lemma CepPatternExact(s: string)
    ensures Matches(CepPattern, s) <==> IsCep(s)
  {
    var tail := [Maybe(Char('-')), Times(Digit, 3)];
    assert CepPattern == [Times(Digit, 5)] + tail;
    TimesMatches(Digit, 5, tail, s);
    if |s| >= 5 {
      var t := s[5..];
      assert tail == [Maybe(Char('-'))] + [Times(Digit, 3)];
      MaybeMatches(Char('-'), [Times(Digit, 3)], t);
      assert [Times(Digit, 3)] == [Times(Digit, 3)] + [];
      TimesMatches(Digit, 3, [], t);
      if |t| > 0 {
        TimesMatches(Digit, 3, [], t[1..]);
      }
      if IsCep(s) {
        if |s| == 8 {
          assert forall i :: 0 <= i < 3 ==> Accepts(Digit, t[i]) by {
            forall i | 0 <= i < 3 ensures Accepts(Digit, t[i]) {
              assert t[i] == s[5 + i];
            }
          }
        } else {
          assert forall i :: 0 <= i < 5 ==> Accepts(Digit, s[i]) by {
            forall i | 0 <= i < 5 ensures Accepts(Digit, s[i]) {
              assert s[i] == s[..5][i];
            }
          }
          assert forall i :: 0 <= i < 3 ==> Accepts(Digit, t[1..][i]) by {
            forall i | 0 <= i < 3 ensures Accepts(Digit, t[1..][i]) {
              assert t[1..][i] == s[6..][i];
            }
          }
        }
      }
      if Matches(CepPattern, s) {
        if Matches([Times(Digit, 3)], t) {
          assert |s| == 8;
          forall i | 0 <= i < 8 ensures IsDigit(s[i]) {
            if i >= 5 {
              assert s[i] == t[i - 5];
            }
          }
        } else {
          assert |s| == 9 && s[5] == '-';
          forall i | 0 <= i < 5 ensures IsDigit(s[..5][i]) {
          }
          forall i | 0 <= i < 3 ensures IsDigit(s[6..][i]) {
            assert s[6..][i] == t[1..][i];
          }
        }
      }
    }
  }

  /** `regexp.MustCompile(`^[0-9]{5}-?[0-9]{3}$`).MatchString(s)` */
  function Validate(s: string): (ok: bool)
    ensures ok <==> IsCep(s)
  {
    CepPatternExact(s);
    Matches(CepPattern, s)
  }

  /** The hyphen after the fifth digit is optional: inserting it never
      changes the verdict. */
  lemma {:induction false} HyphenIsOptional(head: string, tail: string)
    requires |head| == 5 && |tail| == 3
    ensures Validate(head + tail) <==> Validate(head + "-" + tail)
  {
    var plain := head + tail;
    var dashed := head + "-" + tail;
    assert dashed[..5] == head && dashed[5] == '-' && dashed[6..] == tail;
    assert plain[..5] == head && plain[5..] == tail;
    if AllDigits(plain) {
      forall i | 0 <= i < 5 ensures IsDigit(head[i]) {
        assert head[i] == plain[i];
      }
      forall i | 0 <= i < 3 ensures IsDigit(tail[i]) {
        assert tail[i] == plain[5 + i];
      }
    }
    if AllDigits(head) && AllDigits(tail) {
      forall i | 0 <= i < 8 ensures IsDigit(plain[i]) {
        if i < 5 {
          assert plain[i] == head[i];
        } else {
          assert plain[i] == tail[i - 5];
        }
      }
    }
  }

  /** A trailing newline is never tolerated, whatever precedes it. */
  lemma {:induction false} TrailingNewlineRejected(s: string)
    ensures !Validate(s + "\n")
  {
    var t := s + "\n";
    assert t[|t| - 1] == '\n';
    assert !IsDigit(t[|t| - 1]);
    if |t| == 9 {
      assert t[6..][2] == t[8];
    }
  }
}
