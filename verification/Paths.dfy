/** Slash-separated paths: splitting, joining, and their order by component. */
module Paths {

  /** Components as `split('/').filter(Boolean)` leaves them. */
  ghost predicate Clean(p: seq<string>) {
    forall i :: 0 <= i < |p| ==> p[i] != "" && '/' !in p[i]
  }

  function Join(p: seq<string>): string {
    if p == [] then ""
    else if |p| == 1 then p[0]
    else p[0] + "/" + Join(p[1..])
  }

  function Word(w: string): seq<string> {
    if w == "" then [] else [w]
  }

  function Cut(s: string, word: string): seq<string>
    decreases |s|
  {
    if s == [] then Word(word)
    else if s[0] == '/' then Word(word) + Cut(s[1..], "")
    else Cut(s[1..], word + [s[0]])
  }

  function Components(s: string): seq<string> {
    Cut(s, "")
  }

  lemma {:induction false} CutClean(s: string, word: string)
    requires '/' !in word
    ensures Clean(Cut(s, word))
    decreases |s|
  {
    if s != [] {
      if s[0] == '/' { CutClean(s[1..], ""); } else { CutClean(s[1..], word + [s[0]]); }
    }
  }

  lemma {:induction false} CutWord(c: string, rest: string, word: string)
    requires '/' !in c
    ensures Cut(c + rest, word) == Cut(rest, word + c)
  {
    if c == "" {
      assert c + rest == rest && word + c == word;
    } else {
      assert (c + rest)[1..] == c[1..] + rest;
      CutWord(c[1..], rest, word + [c[0]]);
      assert word + [c[0]] + c[1..] == word + c;
    }
  }

  /** Splitting undoes joining. */
  lemma {:induction false} SplitJoin(p: seq<string>)
    requires Clean(p)
    ensures Components(Join(p)) == p
  {
    if p != [] {
      if |p| == 1 {
        CutWord(p[0], "", "");
        assert p[0] + "" == p[0] && "" + p[0] == p[0];
      } else {
        var rest := "/" + Join(p[1..]);
        assert Join(p) == p[0] + rest;
        CutWord(p[0], rest, "");
        assert "" + p[0] == p[0];
        assert rest[1..] == Join(p[1..]);
        SplitJoin(p[1..]);
        assert p == [p[0]] + p[1..];
      }
    }
  }

  lemma JoinInjective(p: seq<string>, q: seq<string>)
    requires Clean(p) && Clean(q) && Join(p) == Join(q)
    ensures p == q
  {
    SplitJoin(p);
    SplitJoin(q);
  }

  lemma {:induction false} JoinParts(p: seq<string>, q: seq<string>)
    requires p != [] && q != []
    ensures Join(p + q) == Join(p) + "/" + Join(q)
  {
    if |p| == 1 {
      assert (p + q)[1..] == q;
    } else {
      assert (p + q)[1..] == p[1..] + q;
      JoinParts(p[1..], q);
      assert p[0] + "/" + (Join(p[1..]) + "/" + Join(q)) == p[0] + "/" + Join(p[1..]) + "/" + Join(q);
    }
  }

  // ----- order -----

  /** JavaScript's string order, by character. */
  predicate Less(a: string, b: string) {
    if b == "" then false
    else if a == "" then true
    else if a[0] != b[0] then a[0] < b[0]
    else Less(a[1..], b[1..])
  }

  lemma {:induction false} LessTotal(a: string, b: string)
    ensures a == b || Less(a, b) || Less(b, a)
    ensures !(Less(a, b) && Less(b, a)) && !Less(a, a)
  {
    if a != "" && b != "" {
      LessTotal(a[1..], b[1..]);
      LessTotal(a[1..], a[1..]);
      if a[0] == b[0] && a[1..] == b[1..] { assert a == [a[0]] + a[1..] && b == [b[0]] + b[1..]; }
    } else if a != "" {
      LessTotal(a[1..], a[1..]);
    }
  }

  lemma {:induction false} LessTransitive(a: string, b: string, c: string)
    requires Less(a, b) && Less(b, c)
    ensures Less(a, c)
  {
    if a != "" && a[0] == b[0] && b[0] == c[0] { LessTransitive(a[1..], b[1..], c[1..]); }
  }

  /** Component by component, then the shorter path first. */
  predicate AtMost(a: seq<string>, b: seq<string>) {
    if a == [] then true
    else if b == [] then false
    else if a[0] != b[0] then Less(a[0], b[0])
    else AtMost(a[1..], b[1..])
  }

  lemma {:induction false} AtMostTotal(a: seq<string>, b: seq<string>)
    ensures AtMost(a, b) || AtMost(b, a)
  {
    if a != [] && b != [] {
      LessTotal(a[0], b[0]);
      AtMostTotal(a[1..], b[1..]);
    }
  }

  lemma {:induction false} AtMostTransitive(a: seq<string>, b: seq<string>, c: seq<string>)
    requires AtMost(a, b) && AtMost(b, c)
    ensures AtMost(a, c)
  {
    if a != [] {
      LessTotal(a[0], b[0]);
      LessTotal(b[0], c[0]);
      if a[0] == b[0] == c[0] { AtMostTransitive(a[1..], b[1..], c[1..]); }
      else if a[0] != b[0] && b[0] != c[0] { LessTransitive(a[0], b[0], c[0]); LessTotal(a[0], c[0]); }
    }
  }

  /** Between two paths inside a folder everything is inside that folder. */
  lemma {:induction false} Between(folder: seq<string>, a: seq<string>, b: seq<string>, c: seq<string>)
    requires AtMost(a, b) && AtMost(b, c)
    requires folder < a && folder <= c
    ensures folder < b
  {
    if folder != [] {
      LessTotal(a[0], b[0]);
      LessTotal(b[0], c[0]);
      assert a[0] == folder[0] == c[0];
      assert folder[1..] < a[1..] && folder[1..] <= c[1..];
      Between(folder[1..], a[1..], b[1..], c[1..]);
      assert folder == [folder[0]] + folder[1..] && b == [b[0]] + b[1..];
    }
  }
}
