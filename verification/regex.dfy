/** The fragment of Python's `re.match` the email check uses: patterns made
    of `.` and literal characters, each optionally followed by `+`, matched
    from the start of the string (a prefix match, no end anchor). `.` matches
    any character except a newline. */
module Regex {

  datatype Atom = Any | Lit(c: char)

  datatype Piece = One(atom: Atom) | Plus(atom: Atom)

  predicate Fits(a: Atom, c: char) {
    match a
    case Any => c != '\n'
    case Lit(x) => c == x
  }

  /** Whether pattern `p` matches some prefix of `s[i..]`. */
  predicate MatchAt(p: seq<Piece>, s: string, i: nat)
    requires i <= |s|
    decreases |p|, |s| - i
  {
    if |p| == 0 then true
    else if i == |s| || !Fits(p[0].atom, s[i]) then false
    else match p[0]
      case One(_) => MatchAt(p[1..], s, i + 1)
      case Plus(_) => MatchAt(p[1..], s, i + 1) || MatchAt(p, s, i + 1)
  }

  /** `re.match(p, s) is not None`. */
  predicate Match(p: seq<Piece>, s: string) {
    MatchAt(p, s, 0)
  }

  /** The pattern `.+@.+`. */
  const EmailPattern: seq<Piece> := [Plus(Any), One(Lit('@')), Plus(Any)]

  /** An `@` at index `k` with at least one character from `i` before it,
      none of them a newline, and a non-newline character right after it. */
  predicate AtSplit(s: string, i: nat, k: nat) {
    i < k && k + 1 < |s| && s[k] == '@' && s[k + 1] != '\n'
    && forall j :: i <= j < k ==> s[j] != '\n'
  }

  /** What `.+@.+` accepts, stated without the matcher. */
  predicate EmailShape(s: string) {
    exists k :: 0 <= k < |s| && AtSplit(s, 0, k)
  }

  lemma MatchTail(s: string, i: nat)
    requires i <= |s|
    ensures MatchAt(EmailPattern[1..], s, i) <==> i + 1 < |s| && s[i] == '@' && s[i + 1] != '\n'
  {
    var p := EmailPattern[1..];
    assert p == [One(Lit('@')), Plus(Any)];
    if i < |s| && s[i] == '@' && i + 1 < |s| {
      var q := p[1..];
      assert q == [Plus(Any)];
      assert q[1..] == [];
      if s[i + 1] != '\n' {
        assert MatchAt(q[1..], s, i + 2);
        assert MatchAt(q, s, i + 1);
      }
      assert MatchAt(p, s, i) == MatchAt(q, s, i + 1);
    }
  }

  lemma {:induction false} MatchFrom(s: string, i: nat)
    requires i <= |s|
    ensures MatchAt(EmailPattern, s, i) <==> exists k :: i <= k < |s| && AtSplit(s, i, k)
    decreases |s| - i
  {
    if i < |s| && s[i] != '\n' {
      MatchTail(s, i + 1);
      MatchFrom(s, i + 1);
      if MatchAt(EmailPattern, s, i) {
        if MatchAt(EmailPattern[1..], s, i + 1) {
          assert AtSplit(s, i, i + 1);
        } else {
          var k :| i + 1 <= k < |s| && AtSplit(s, i + 1, k);
          assert AtSplit(s, i, k);
        }
      }
      if exists k :: i <= k < |s| && AtSplit(s, i, k) {
        var k :| i <= k < |s| && AtSplit(s, i, k);
        if k > i + 1 {
          assert AtSplit(s, i + 1, k);
        }
      }
    }
  }

  /** `re.match(r'.+@.+', s)` succeeds exactly on the strings with an `@`
      at index 1 or later that has no newline before it and a character
      other than a newline right after it. */
  lemma EmailMatch(s: string)
    ensures Match(EmailPattern, s) <==> EmailShape(s)
  {
    MatchFrom(s, 0);
  }

  /** An ordinary address matches; an empty local part or domain does not;
      a second `@` is just another character. */
  lemma EmailExamples()
    ensures Match(EmailPattern, "stupnikov@otus.ru")
    ensures !Match(EmailPattern, "@otus.ru")
    ensures !Match(EmailPattern, "stupnikov@")
    ensures Match(EmailPattern, "a@@")
  {
    EmailMatch("stupnikov@otus.ru");
    assert AtSplit("stupnikov@otus.ru", 0, 9);
    EmailMatch("@otus.ru");
    EmailMatch("stupnikov@");
    EmailMatch("a@@");
    assert AtSplit("a@@", 0, 1);
  }
}
