/** Splitting text into lines and joining them again, as `split("\n")` and `join("\n")` do. */
module TextLines {
  import opened Prelude

  function Lines(t: string): (ls: seq<string>)
    ensures ls != []
  {
    if t == [] then [[]] else Push(t[0], Lines(t[1..]))
  }

  function Push(c: char, ls: seq<string>): (r: seq<string>)
    requires ls != []
    ensures r != []
  {
    if c == '\n' then [[]] + ls else [[c] + ls[0]] + ls[1..]
  }

  lemma PushConcat(c: char, a: seq<string>, b: seq<string>)
    requires a != []
    ensures Push(c, a + b) == Push(c, a) + b
  {
    assert (a + b)[1..] == a[1..] + b;
  }

  function Join(ls: seq<string>): string {
    if ls == [] then []
    else if |ls| == 1 then ls[0]
    else ls[0] + "\n" + Join(ls[1..])
  }

  ghost predicate OneLine(s: string) {
    '\n' !in s
  }

  ghost predicate AllLines(ls: seq<string>) {
    forall l :: l in ls ==> OneLine(l)
  }

  lemma {:induction false} LinesConcat(a: string, b: string)
    ensures Lines(a + "\n" + b) == Lines(a) + Lines(b)
    decreases |a|
  {
    var t := a + "\n" + b;
    if a == [] {
      assert t == "\n" + b && t[1..] == b;
    } else {
      assert t[1..] == a[1..] + "\n" + b;
      LinesConcat(a[1..], b);
      PushConcat(a[0], Lines(a[1..]), Lines(b));
    }
  }

  lemma {:induction false} LinesAreLines(t: string)
    ensures AllLines(Lines(t))
  {
    if t != [] {
      var r := Lines(t[1..]);
      LinesAreLines(t[1..]);
      forall l | l in Lines(t) ensures OneLine(l) {
        if t[0] != '\n' {
          assert l == [t[0]] + r[0] || l in r[1..];
          assert r[0] in r;
        }
      }
    }
  }

  lemma {:induction false} LineIsItself(l: string)
    requires OneLine(l)
    ensures Lines(l) == [l]
  {
    if l != [] {
      assert l[0] in l;
      assert forall c :: c in l[1..] ==> c in l;
      LineIsItself(l[1..]);
      assert [l[0]] + l[1..] == l;
    }
  }

  lemma {:induction false} JoinLines(t: string)
    ensures Join(Lines(t)) == t
  {
    if t != [] {
      JoinLines(t[1..]);
      var r := Lines(t[1..]);
      if t[0] == '\n' {
        assert ([[]] + r)[1..] == r;
        assert [] + "\n" + t[1..] == t;
      } else {
        var ls := [[t[0]] + r[0]] + r[1..];
        assert ls[1..] == r[1..];
        assert t == [t[0]] + t[1..];
        if |r| == 1 {
          assert Join(ls) == [t[0]] + r[0];
        } else {
          assert [t[0]] + (r[0] + "\n" + Join(r[1..])) == ([t[0]] + r[0]) + "\n" + Join(r[1..]);
        }
      }
    }
  }

  lemma {:induction false} LinesJoin(ls: seq<string>)
    requires ls != [] && AllLines(ls)
    ensures Lines(Join(ls)) == ls
  {
    assert ls[0] in ls;
    LineIsItself(ls[0]);
    if |ls| > 1 {
      assert forall l :: l in ls[1..] ==> l in ls;
      LinesJoin(ls[1..]);
      LinesConcat(ls[0], Join(ls[1..]));
      assert [ls[0]] + ls[1..] == ls;
    } else {
      assert ls == [ls[0]];
    }
  }

  lemma {:induction false} JoinConcat(a: seq<string>, b: seq<string>)
    requires a != [] && b != []
    ensures Join(a + b) == Join(a) + "\n" + Join(b)
  {
    if |a| == 1 {
      assert (a + b)[1..] == b;
    } else {
      assert (a + b)[1..] == a[1..] + b;
      JoinConcat(a[1..], b);
      assert a[0] + "\n" + (Join(a[1..]) + "\n" + Join(b)) == (a[0] + "\n" + Join(a[1..])) + "\n" + Join(b);
    }
  }
}
