/**
 * The JavaScript string operations the form serialisation uses:
 * `String.prototype.trim`, `split(',')`, `Array.prototype.join` and
 * `filter(Boolean)` on an array of strings.
 */
module Strings {

  /** Sequence facts Dafny knows already, stated once as lemmas: a proof about
      a big term calls them on its own parts, which is much cheaper for the
      solver than rediscovering the fact inside that term. */
  // Associativity of concatenation, for regrouping a long concatenation.
  lemma {:induction false} ConcatAssoc<T>(a: seq<T>, b: seq<T>, c: seq<T>)
    ensures a + b + c == a + (b + c)
  {
  }

  // A non-empty sequence is its head followed by its tail.
  lemma {:induction false} HeadTail<T>(xs: seq<T>)
    requires xs != []
    ensures [xs[0]] + xs[1..] == xs
  {
  }

  /** WhiteSpace and LineTerminator code points of ECMAScript, the set `trim` removes. */
  predicate IsWhitespace(c: char) {
    || c == '\t' || c == '\n' || c == '\U{B}' || c == '\U{C}' || c == '\r' || c == ' '
    || c == '\U{A0}' || c == '\U{1680}' || ('\U{2000}' <= c <= '\U{200A}')
    || c == '\U{2028}' || c == '\U{2029}' || c == '\U{202F}' || c == '\U{205F}'
    || c == '\U{3000}' || c == '\U{FEFF}'
  }

  /** Neither the first nor the last character is whitespace. */
  predicate IsTrimmed(s: string) {
    s == [] || (!IsWhitespace(s[0]) && !IsWhitespace(s[|s| - 1]))
  }

  /** `trimStart`: drops the longest whitespace prefix. */
  function TrimStart(s: string): string
    decreases |s|
  {
    if |s| > 0 && IsWhitespace(s[0]) then TrimStart(s[1..]) else s
  }

  /** What `trimStart` keeps is a suffix of `s`. */
  lemma {:induction false} TrimStartSuffix(s: string)
    ensures |TrimStart(s)| <= |s| && TrimStart(s) == s[|s| - |TrimStart(s)|..]
    decreases |s|
  {
    if |s| > 0 && IsWhitespace(s[0]) {
      TrimStartSuffix(s[1..]);
    }
  }

  /** What `trimStart` keeps does not start with whitespace. */
  lemma {:induction false} TrimStartFirst(s: string)
    ensures TrimStart(s) != [] ==> !IsWhitespace(TrimStart(s)[0])
    decreases |s|
  {
    if |s| > 0 && IsWhitespace(s[0]) {
      TrimStartFirst(s[1..]);
    }
  }

  /** What `trimStart` drops is whitespace only. */
  lemma {:induction false} TrimStartDrops(s: string, i: nat)
    requires i < |s| - |TrimStart(s)|
    ensures IsWhitespace(s[i])
  {
    if i > 0 {
      TrimStartDrops(s[1..], i - 1);
    }
  }

  /** `trimEnd`: drops the longest whitespace suffix. */
  function TrimEnd(s: string): string
    decreases |s|
  {
    if |s| > 0 && IsWhitespace(s[|s| - 1]) then TrimEnd(s[..|s| - 1]) else s
  }

  /** What `trimEnd` keeps is a prefix of `s`. */
  lemma {:induction false} TrimEndPrefix(s: string)
    ensures |TrimEnd(s)| <= |s| && TrimEnd(s) == s[..|TrimEnd(s)|]
    decreases |s|
  {
    if |s| > 0 && IsWhitespace(s[|s| - 1]) {
      TrimEndPrefix(s[..|s| - 1]);
    }
  }

  /** What `trimEnd` keeps does not end with whitespace. */
  lemma {:induction false} TrimEndLast(s: string)
    ensures TrimEnd(s) != [] ==> !IsWhitespace(TrimEnd(s)[|TrimEnd(s)| - 1])
    decreases |s|
  {
    if |s| > 0 && IsWhitespace(s[|s| - 1]) {
      TrimEndLast(s[..|s| - 1]);
    }
  }

  /** What `trimEnd` drops is whitespace only. */
  lemma {:induction false} TrimEndDrops(s: string, i: nat)
    requires |TrimEnd(s)| <= i < |s|
    ensures IsWhitespace(s[i])
  {
    if i < |s| - 1 {
      TrimEndDrops(s[..|s| - 1], i);
    }
  }

  /** `trim`: the longest infix of `s` that neither starts nor ends with whitespace. */
  function Trim(s: string): string
  {
    TrimEnd(TrimStart(s))
  }

  /** `trim` yields a trimmed string, and leaves a trimmed string as it is. */
  lemma {:induction false} TrimTrims(s: string)
    ensures IsTrimmed(Trim(s))
    ensures IsTrimmed(s) ==> Trim(s) == s
  {
    var t := TrimStart(s);
    TrimStartFirst(s);
    TrimEndLast(t);
    TrimEndPrefix(t);
    var r := TrimEnd(t);
    if r != [] {
      assert r[0] == t[0];
    }
  }

  /** What `trim` keeps is an infix of `s`: it starts where the leading
      whitespace ends. */
  lemma {:induction false} TrimInfix(s: string)
    ensures |TrimStart(s)| <= |s|
    ensures |s| - |TrimStart(s)| + |Trim(s)| <= |s|
    ensures Trim(s) == s[|s| - |TrimStart(s)|..|s| - |TrimStart(s)| + |Trim(s)|]
  {
    var t := TrimStart(s);
    TrimStartSuffix(s);
    TrimEndPrefix(t);
    var k, m := |s| - |t|, |TrimEnd(t)|;
    PrefixOfSuffix(s, k, m);
    assert Trim(s) == TrimEnd(t);
  }

  // The first m elements after position k, taken in two steps.
  lemma {:induction false} PrefixOfSuffix<T>(s: seq<T>, k: nat, m: nat)
    requires k + m <= |s|
    ensures s[k..][..m] == s[k..k + m]
  {
  }

  /** `trim` introduces no character. */
  lemma {:induction false} TrimKeeps(s: string, c: char)
    ensures c in Trim(s) ==> c in s
  {
    var t := TrimStart(s);
    var r := TrimEnd(t);
    TrimStartSuffix(s);
    TrimEndPrefix(t);
    if c in r {
      var k :| 0 <= k < |r| && r[k] == c;
      assert t[k] == c;
      assert s[|s| - |t| + k] == c;
    }
  }

  /** Leading whitespace does not change what `trimStart` yields. */
  lemma {:induction false} TrimStartSkips(w: string, x: string)
    requires forall i :: 0 <= i < |w| ==> IsWhitespace(w[i])
    ensures TrimStart(w + x) == TrimStart(x)
  {
    if w == [] {
      assert w + x == x;
    } else {
      assert (w + x)[1..] == w[1..] + x;
      TrimStartSkips(w[1..], x);
    }
  }

  /** `s.split(sep)` for a one-character separator: the maximal separator-free
      pieces, in order; never empty ("" splits into [""]). */
  function Split(s: string, sep: char): (pieces: seq<string>)
    ensures |pieces| >= 1
  {
    if s == [] then [[]]
    else if s[0] == sep then [[]] + Split(s[1..], sep)
    else
      var rest := Split(s[1..], sep);
      [[s[0]] + rest[0]] + rest[1..]
  }

  /** `parts.join(sep)`. */
  function Join(parts: seq<string>, sep: string): string
  {
    if |parts| == 0 then []
    else if |parts| == 1 then parts[0]
    else parts[0] + sep + Join(parts[1..], sep)
  }

  /** `pieces.filter(Boolean)`: keeps the non-empty strings, in order. */
  function NonEmpty(pieces: seq<string>): seq<string>
  {
    if pieces == [] then []
    else (if pieces[0] != [] then [pieces[0]] else []) + NonEmpty(pieces[1..])
  }

  /** The kept strings are exactly the non-empty ones. */
  lemma {:induction false} NonEmptyMembers(pieces: seq<string>, x: string)
    ensures x in NonEmpty(pieces) <==> x in pieces && x != []
  {
    if pieces != [] {
      NonEmptyMembers(pieces[1..], x);
      assert pieces == [pieces[0]] + pieces[1..];
    }
  }

  lemma {:induction false} NonEmptyCons(x: string, rest: seq<string>)
    ensures NonEmpty([x] + rest) == (if x != [] then [x] else []) + NonEmpty(rest)
  {
    assert ([x] + rest)[1..] == rest;
  }

  lemma {:induction false} NonEmptyOfThree(a: string, b: string, c: string)
    ensures NonEmpty([a, b, c])
         == (if a != [] then [a] else []) + (if b != [] then [b] else []) + (if c != [] then [c] else [])
  {
    NonEmptyCons(c, []);
    assert [c] + [] == [c];
    NonEmptyCons(b, [c]);
    assert [b] + [c] == [b, c];
    NonEmptyCons(a, [b, c]);
    assert [a] + [b, c] == [a, b, c];
  }

  /** Three strings with the blanks dropped and the rest joined: the present
      ones in order, one separator between neighbours. */
  lemma {:induction false} JoinNonEmptyOfThree(a: string, b: string, c: string, sep: string)
    ensures Join(NonEmpty([a, b, c]), sep)
         == a + (if a != "" && (b != "" || c != "") then sep else "")
              + b + (if b != "" && c != "" then sep else "")
              + c
  {
    NonEmptyOfThree(a, b, c);
    var parts := NonEmpty([a, b, c]);
    assert [a, b, c][1..] == [b, c] && [a, b][1..] == [b] && [a, c][1..] == [c] && [b, c][1..] == [c];
    if a != "" && b != "" && c != "" {
      assert parts == [a, b, c];
      assert Join([b, c], sep) == b + sep + c;
      assert Join([a, b, c], sep) == a + sep + (b + sep + c);
      assert a + sep + (b + sep + c) == a + sep + b + sep + c;
    } else if a != "" && b != "" {
      assert c == "" && parts == [a, b];
      assert Join([a, b], sep) == a + sep + b;
      assert a + sep + b + "" + "" == a + sep + b;
    } else if a != "" && c != "" {
      assert b == "" && parts == [a, c];
      assert Join([a, c], sep) == a + sep + c;
      assert a + sep + "" + "" + c == a + sep + c;
    } else if b != "" && c != "" {
      assert a == "" && parts == [b, c];
      assert Join([b, c], sep) == b + sep + c;
      assert "" + "" + b + sep + c == b + sep + c;
    } else if a != "" {
      assert b == "" && c == "" && parts == [a];
      assert a + "" + "" + "" + "" == a;
    } else if b != "" {
      assert a == "" && c == "" && parts == [b];
      assert "" + "" + b + "" + "" == b;
    } else if c != "" {
      assert a == "" && b == "" && parts == [c];
      assert "" + "" + "" + "" + c == c;
    } else {
      assert parts == [];
    }
  }


  /** The same, as what a reader of the joined string can rely on: it is
      blank exactly when all three are, it starts with `a`, then `b` follows
      (after a separator when `a` is present), and it ends with `c`. */
  lemma {:induction false} JoinNonEmptyOfThreeShape(a: string, b: string, c: string, sep: string)
    ensures var r := Join(NonEmpty([a, b, c]), sep);
      && (r == [] <==> a == [] && b == [] && c == [])
      && (b == [] && c == [] ==> r == a)
      && a <= r
      && (b != [] ==> (if a == [] then [] else a + sep) + b <= r)
      && |c| <= |r| && r[|r| - |c|..] == c
  {
    JoinNonEmptyOfThree(a, b, c, sep);
    var g1 := if a != [] && (b != [] || c != []) then sep else [];
    var g2 := if b != [] && c != [] then sep else [];
    var r := a + g1 + b + g2 + c;
    assert r == a + (g1 + b + g2 + c);
    assert r == (a + g1 + b) + (g2 + c);
    assert r == (a + g1 + b + g2) + c;
    if b != [] {
      assert (if a == [] then [] else a + sep) + b == a + g1 + b;
    }
  }

  /** `pieces.map(p => p.trim())`. */
  function TrimAll(pieces: seq<string>): (r: seq<string>)
    ensures |r| == |pieces|
  {
    if pieces == [] then [] else [Trim(pieces[0])] + TrimAll(pieces[1..])
  }

  lemma {:induction false} TrimAllAt(pieces: seq<string>, i: nat)
    requires i < |pieces|
    ensures TrimAll(pieces)[i] == Trim(pieces[i])
  {
    if i > 0 { TrimAllAt(pieces[1..], i - 1); }
  }

  /** The trimmed pieces are exactly the trims of the pieces. */
  lemma {:induction false} TrimAllMembers(pieces: seq<string>, x: string)
    ensures x in TrimAll(pieces) <==> exists p :: p in pieces && Trim(p) == x
  {
    if x in TrimAll(pieces) {
      var j :| 0 <= j < |TrimAll(pieces)| && TrimAll(pieces)[j] == x;
      TrimAllAt(pieces, j);
      assert pieces[j] in pieces;
    }
    if exists p :: p in pieces && Trim(p) == x {
      var p :| p in pieces && Trim(p) == x;
      var j :| 0 <= j < |pieces| && pieces[j] == p;
      TrimAllAt(pieces, j);
    }
  }

  lemma {:induction false} TrimAllConcat(a: seq<string>, b: seq<string>)
    ensures TrimAll(a + b) == TrimAll(a) + TrimAll(b)
  {
    if a == [] {
      assert a + b == b;
    } else {
      assert (a + b)[1..] == a[1..] + b;
      TrimAllConcat(a[1..], b);
    }
  }

  lemma {:induction false} NonEmptyConcat(a: seq<string>, b: seq<string>)
    ensures NonEmpty(a + b) == NonEmpty(a) + NonEmpty(b)
  {
    if a == [] {
      assert a + b == b;
    } else {
      assert (a + b)[1..] == a[1..] + b;
      NonEmptyConcat(a[1..], b);
    }
  }

  /** No piece of a split contains the separator. */
  lemma {:induction false} SplitPiecesFree(s: string, sep: char)
    ensures forall p :: p in Split(s, sep) ==> sep !in p
  {
    if s != [] {
      SplitPiecesFree(s[1..], sep);
      if s[0] != sep {
        var rest := Split(s[1..], sep);
        assert rest[0] in rest;
      }
    }
  }

  /** Joining the pieces with the separator gives back the split string. */
  lemma {:induction false} SplitJoin(s: string, sep: char)
    ensures Join(Split(s, sep), [sep]) == s
  {
    if s != [] {
      var rest := Split(s[1..], sep);
      SplitJoin(s[1..], sep);
      if s[0] == sep {
        assert ([[]] + rest)[1..] == rest;
      } else {
        var pieces := [[s[0]] + rest[0]] + rest[1..];
        assert pieces[1..] == rest[1..];
        if |rest| > 1 {
          assert Join(rest, [sep]) == rest[0] + [sep] + Join(rest[1..], [sep]);
        }
      }
    }
  }

  /** A separator-free string splits into itself alone. */
  lemma {:induction false} SplitSingle(p: string, sep: char)
    requires sep !in p
    ensures Split(p, sep) == [p]
  {
    if p != [] {
      assert p[0] in p;
      SplitSingle(p[1..], sep);
      assert [p[0]] + p[1..] == p;
    }
  }

  /** Splitting at a separator splits each side independently. */
  lemma {:induction false} SplitConcat(a: string, b: string, sep: char)
    ensures Split(a + [sep] + b, sep) == Split(a, sep) + Split(b, sep)
  {
    if a == [] {
      assert a + [sep] + b == [sep] + b;
      assert ([sep] + b)[1..] == b;
    } else {
      assert (a + [sep] + b)[1..] == a[1..] + [sep] + b;
      SplitConcat(a[1..], b, sep);
    }
  }
}
