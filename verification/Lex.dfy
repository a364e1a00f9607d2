// Shared small types: optional values, and the order Python uses to compare
// strings (code point by code point, a proper prefix first).

module Options {
  datatype Option<+T> = None | Some(value: T)
}

module Lex {

  predicate Less(s: string, t: string) {
    && t != ""
    && (s == "" || s[0] < t[0] || (s[0] == t[0] && Less(s[1..], t[1..])))
  }

  predicate AtMost(s: string, t: string) {
    s == t || Less(s, t)
  }

  lemma {:induction false} Irreflexive(s: string)
    ensures !Less(s, s)
  {
    if s == "" {
    } else {
      Irreflexive(s[1..]);
    }
  }

  lemma {:induction false} Transitive(s: string, t: string, u: string)
    requires Less(s, t) && Less(t, u)
    ensures Less(s, u)
  {
    if s != "" && s[0] == t[0] && t[0] == u[0] {
      Transitive(s[1..], t[1..], u[1..]);
    }
  }

  lemma {:induction false} Total(s: string, t: string)
    ensures s == t || Less(s, t) || Less(t, s)
  {
    if s != "" && t != "" && s[0] == t[0] {
      Total(s[1..], t[1..]);
      if s[1..] == t[1..] {
        assert s == [s[0]] + s[1..] == t;
      }
    }
  }

  lemma Asymmetric(s: string, t: string)
    requires Less(s, t)
    ensures !Less(t, s) && s != t
  {
    Irreflexive(s);
    if Less(t, s) {
      Transitive(s, t, s);
    }
  }
}
