/** Loops of a configuration file: a definition inside of loops is made once for each combination of values. */
module Loops {
  import opened Sequences
  import opened Wrappers

  datatype Loop = Loop(iter: string, values: seq<string>)

  type Definitions = map<string, string>

  /** A line `key = value` with the names in it; what it expands to depends on the definitions. */
  datatype Line = Line(key: Definitions -> string, value: Definitions -> string)

  /** All combinations of values, the first loop varying slowest. */
  function Tuples(loops: seq<Loop>): (ts: seq<seq<string>>)
    decreases |loops|, 1
  {
    if loops == [] then [[]] else Prefixed(loops[0].values, Tuples(loops[1..]))
  }

  function Prefixed(values: seq<string>, ts: seq<seq<string>>): seq<seq<string>> {
    if values == [] then [] else Prefixed(values[..|values| - 1], ts) + WithFirst(values[|values| - 1], ts)
  }

  function WithFirst(v: string, ts: seq<seq<string>>): (r: seq<seq<string>>)
    ensures |r| == |ts| && forall i :: 0 <= i < |ts| ==> r[i] == [v] + ts[i]
  {
    seq(|ts|, i requires 0 <= i < |ts| => [v] + ts[i])
  }

  /** The number of combinations. */
  function Product(loops: seq<Loop>): nat {
    if loops == [] then 1 else |loops[0].values| * Product(loops[1..])
  }

  ghost predicate IsTuple(t: seq<string>, loops: seq<Loop>) {
    |t| == |loops| && forall k :: 0 <= k < |t| ==> t[k] in loops[k].values
  }

  lemma WithFirstMembers(v: string, ts: seq<seq<string>>, t: seq<string>)
    ensures t in WithFirst(v, ts) <==> t != [] && t[0] == v && t[1..] in ts
  {
    var last := WithFirst(v, ts);
    if t != [] && t[0] == v && t[1..] in ts {
      var i :| 0 <= i < |ts| && ts[i] == t[1..];
      assert last[i] == t;
    }
  }

  lemma {:induction false} PrefixedSize(values: seq<string>, ts: seq<seq<string>>)
    ensures |Prefixed(values, ts)| == |values| * |ts|
  {
    if values != [] {
      PrefixedSize(values[..|values| - 1], ts);
      assert |values| * |ts| == (|values| - 1) * |ts| + |ts|;
    }
  }

  lemma {:induction false} PrefixedMembers(values: seq<string>, ts: seq<seq<string>>, t: seq<string>)
    ensures t in Prefixed(values, ts) <==> t != [] && t[0] in values && t[1..] in ts
    ensures |Prefixed(values, ts)| == |values| * |ts|
  {
    PrefixedSize(values, ts);
    hide WithFirst;
    if values != [] {
      var init, v := values[..|values| - 1], values[|values| - 1];
      PrefixedMembers(init, ts, t);
      WithFirstMembers(v, ts, t);
      assert values == init + [v];
    }
  }

  lemma {:induction false} PrefixedDistinct(values: seq<string>, ts: seq<seq<string>>)
    requires Distinct(values) && Distinct(ts)
    ensures Distinct(Prefixed(values, ts))
  {
    if values != [] {
      var init, v := values[..|values| - 1], values[|values| - 1];
      PrefixedDistinct(init, ts);
      var front, last := Prefixed(init, ts), WithFirst(v, ts);
      assert v !in init;
      forall i, j | 0 <= i < j < |front + last| ensures (front + last)[i] != (front + last)[j] {
        if i < |front| <= j {
          PrefixedMembers(init, ts, front[i]);
          assert front[i] in front && last[j - |front|][0] == v;
        } else if |front| <= i {
          var a, b := i - |front|, j - |front|;
          assert last[a][1..] == ts[a] && last[b][1..] == ts[b];
        }
      }
    }
  }

  /** The combinations are exactly the tuples of the cross product, each once. */
  lemma {:induction false} TuplesAreCrossProduct(loops: seq<Loop>, t: seq<string>)
    ensures t in Tuples(loops) <==> IsTuple(t, loops)
    ensures |Tuples(loops)| == Product(loops)
    ensures (forall k :: 0 <= k < |loops| ==> Distinct(loops[k].values)) ==> Distinct(Tuples(loops))
  {
    if loops != [] {
      var rest := loops[1..];
      PrefixedMembers(loops[0].values, Tuples(rest), t);
      TuplesAreCrossProduct(rest, if t == [] then [] else t[1..]);
      if forall k :: 0 <= k < |loops| ==> Distinct(loops[k].values) {
        PrefixedDistinct(loops[0].values, Tuples(rest));
      }
      if t != [] {
        assert t == [t[0]] + t[1..];
        assert IsTuple(t, loops) <==> t[0] in loops[0].values && IsTuple(t[1..], rest);
      }
    }
  }

  lemma {:induction false} PrefixedAt(values: seq<string>, ts: seq<seq<string>>, a: nat, b: nat)
    requires a < |values| && b < |ts|
    ensures a * |ts| + b < |Prefixed(values, ts)| && Prefixed(values, ts)[a * |ts| + b] == [values[a]] + ts[b]
  {
    var init, n := values[..|values| - 1], |values| - 1;
    PrefixedMembers(init, ts, []);
    PrefixedMembers(values, ts, []);
    assert n * |ts| + |ts| == |values| * |ts|;
    if a < n {
      PrefixedAt(init, ts, a, b);
    }
  }

  /** The first loop varies slowest: value `a` of it with all combinations of the others comes before value `a + 1`. */
  lemma FirstLoopVariesSlowest(loops: seq<Loop>, a: nat, b: nat)
    requires loops != [] && a < |loops[0].values| && b < Product(loops[1..])
    ensures b < |Tuples(loops[1..])| && a * Product(loops[1..]) + b < |Tuples(loops)|
    ensures Tuples(loops)[a * Product(loops[1..]) + b] == [loops[0].values[a]] + Tuples(loops[1..])[b]
  {
    TuplesAreCrossProduct(loops[1..], []);
    PrefixedAt(loops[0].values, Tuples(loops[1..]), a, b);
  }

  // Resolving a line

  function Leaf(d: Definitions, line: Line): Definitions {
    d[line.key(d) := line.value(d)]
  }

  /** The definitions that hold each time the line is made inside of the loops, and those that hold afterwards. */
  function Resolved(loops: seq<Loop>, d: Definitions, line: Line): (seq<Definitions>, Definitions)
    decreases |loops|, 1, 0
  {
    if loops == [] then ([d], Leaf(d, line)) else Turns(loops, |loops[0].values|, d, line)
  }

  /** The first `n` turns of the outermost loop. */
  function Turns(loops: seq<Loop>, n: nat, d: Definitions, line: Line): (seq<Definitions>, Definitions)
    requires loops != [] && n <= |loops[0].values|
    decreases |loops|, 0, n
  {
    if n == 0 then ([], d) else
      var (made, d1) := Turns(loops, n - 1, d, line);
      var (more, d2) := Resolved(loops[1..], d1[loops[0].iter := loops[0].values[n - 1]], line);
      (made + more, d2)
  }

  /** The line never defines `x`, whatever the definitions are. */
  ghost predicate Leaves(line: Line, x: string) {
    forall d: Definitions :: line.key(d) != x
  }

  ghost predicate Names(loops: seq<Loop>, x: string) {
    exists k :: 0 <= k < |loops| && loops[k].iter == x
  }

  /** Different iterators, none of them redefined by the line. */
  ghost predicate Unshadowed(loops: seq<Loop>, line: Line) {
    && (forall i, j :: 0 <= i < j < |loops| ==> loops[i].iter != loops[j].iter)
    && (forall k :: 0 <= k < |loops| ==> Leaves(line, loops[k].iter))
  }

  /** All iterators have the values of the tuple. */
  predicate Bound(d: Definitions, loops: seq<Loop>, t: seq<string>) {
    |t| == |loops| && forall k :: 0 <= k < |loops| ==> loops[k].iter in d && d[loops[k].iter] == t[k]
  }

  predicate Agree(d: Definitions, e: Definitions, x: string) {
    (x in d <==> x in e) && (x in d ==> d[x] == e[x])
  }

  /** Names that neither the loops nor the line define. */
  ghost predicate Untouched(loops: seq<Loop>, line: Line, x: string) {
    Leaves(line, x) && !Names(loops, x)
  }

  ghost predicate Enumerates(loops: seq<Loop>, made: seq<Definitions>, ts: seq<seq<string>>) {
    |made| == |ts| && forall i :: 0 <= i < |ts| ==> Bound(made[i], loops, ts[i])
  }

  ghost predicate Preserves(loops: seq<Loop>, line: Line, d: Definitions, made: seq<Definitions>, after: Definitions) {
    forall x :: Untouched(loops, line, x) ==> Agree(d, after, x) && forall i :: 0 <= i < |made| ==> Agree(d, made[i], x)
  }

  /** A line inside of loops is made once for each combination, in order, with all iterators bound to it. */
  lemma {:induction false} ResolvedEnumerates(loops: seq<Loop>, d: Definitions, line: Line)
    requires Unshadowed(loops, line)
    ensures var (made, after) := Resolved(loops, d, line);
      Enumerates(loops, made, Tuples(loops)) && Preserves(loops, line, d, made, after)
    decreases |loops|, 1, 0
  {
    if loops != [] {
      TurnsEnumerate(loops, |loops[0].values|, d, line);
      assert loops[0].values[..|loops[0].values|] == loops[0].values;
    }
  }

  lemma {:induction false} TurnsEnumerate(loops: seq<Loop>, n: nat, d: Definitions, line: Line)
    requires Unshadowed(loops, line) && loops != [] && n <= |loops[0].values|
    ensures var (made, after) := Turns(loops, n, d, line);
      && Enumerates(loops, made, Prefixed(loops[0].values[..n], Tuples(loops[1..])))
      && Preserves(loops, line, d, made, after)
    decreases |loops|, 0, n
  {
    hide Unshadowed, Preserves, Enumerates, Tuples, Prefixed, Resolved;
    var values, ts := loops[0].values, Tuples(loops[1..]);
    TurnsStart(loops, d, line, ts);
    if n > 0 {
      var (made, d1) := Turns(loops, n - 1, d, line);
      TurnsEnumerate(loops, n - 1, d, line);
      InnerUnshadowed(loops, line);
      var e := d1[loops[0].iter := values[n - 1]];
      ResolvedEnumerates(loops[1..], e, line);
      var (more, d2) := Resolved(loops[1..], e, line);
      OneMoreTurn(loops, n, d, line, made, d1, more, d2);
    }
  }

  lemma TurnsStart(loops: seq<Loop>, d: Definitions, line: Line, ts: seq<seq<string>>)
    requires loops != []
    ensures Enumerates(loops, [], Prefixed(loops[0].values[..0], ts)) && Preserves(loops, line, d, [], d)
  {
  }

  lemma InnerUnshadowed(loops: seq<Loop>, line: Line)
    requires Unshadowed(loops, line) && loops != []
    ensures Unshadowed(loops[1..], line)
    ensures Untouched(loops[1..], line, loops[0].iter)
    ensures forall x :: Untouched(loops, line, x) ==> Untouched(loops[1..], line, x) && x != loops[0].iter
  {
    assert forall k :: 0 <= k < |loops[1..]| ==> loops[1..][k] == loops[k + 1];
    forall x | Untouched(loops, line, x) ensures Untouched(loops[1..], line, x) && x != loops[0].iter {
      assert Names(loops[1..], x) ==> Names(loops, x);
    }
  }

  lemma OneMoreTurn(loops: seq<Loop>, n: nat, d: Definitions, line: Line, made: seq<Definitions>, d1: Definitions,
                    more: seq<Definitions>, d2: Definitions)
    requires Unshadowed(loops, line) && loops != [] && 0 < n <= |loops[0].values|
    requires Enumerates(loops, made, Prefixed(loops[0].values[..n - 1], Tuples(loops[1..])))
    requires Preserves(loops, line, d, made, d1)
    requires var e := d1[loops[0].iter := loops[0].values[n - 1]];
      Enumerates(loops[1..], more, Tuples(loops[1..])) && Preserves(loops[1..], line, e, more, d2)
    ensures Enumerates(loops, made + more, Prefixed(loops[0].values[..n], Tuples(loops[1..])))
    ensures Preserves(loops, line, d, made + more, d2)
  {
    var values, ts := loops[0].values, Tuples(loops[1..]);
    var v := values[n - 1];
    var e := d1[loops[0].iter := v];
    assert values[..n][..n - 1] == values[..n - 1];
    InnerUnshadowed(loops, line);
    forall i | 0 <= i < |ts| ensures Bound(more[i], loops, WithFirst(v, ts)[i]) {
      assert Agree(e, more[i], loops[0].iter);
      assert forall k :: 1 <= k < |loops| ==> loops[k] == loops[1..][k - 1];
    }
  }

  // What the line itself defines

  /** The value of `x` in `e` comes from the last one of the first `n` times the line was made that gave `x` a value;
  without any it is as in `d`. */
  ghost predicate LastDefined(line: Line, d: Definitions, made: seq<Definitions>, n: nat, e: Definitions, x: string)
    requires n <= |made|
  {
    || (exists i :: DefinesLast(line, made, n, i, x) && x in e && e[x] == line.value(made[i]))
    || ((forall i :: 0 <= i < n ==> line.key(made[i]) != x) && Agree(d, e, x))
  }

  ghost predicate DefinesLast(line: Line, made: seq<Definitions>, n: nat, i: int, x: string)
    requires n <= |made|
  {
    0 <= i < n && line.key(made[i]) == x && forall j :: i < j < n ==> line.key(made[j]) != x
  }

  /** So it is for `x` in all definitions that a run of the line yields. */
  ghost predicate Accounts(line: Line, d: Definitions, made: seq<Definitions>, after: Definitions, x: string) {
    && LastDefined(line, d, made, |made|, after, x)
    && forall n :: 0 <= n < |made| ==> LastDefined(line, d, made, n, made[n], x)
  }

  lemma DefinedAfter(line: Line, d: Definitions, made: seq<Definitions>, d1: Definitions, e: Definitions,
                     more: seq<Definitions>, n: nat, f: Definitions, x: string)
    requires LastDefined(line, d, made, |made|, d1, x) && Agree(d1, e, x)
    requires n <= |more| && LastDefined(line, e, more, n, f, x)
    ensures LastDefined(line, d, made + more, |made| + n, f, x)
  {
    var all, m := made + more, |made|;
    assert forall i :: 0 <= i < m ==> all[i] == made[i];
    assert forall i :: 0 <= i < n ==> all[m + i] == more[i];
    if i :| DefinesLast(line, more, n, i, x) && x in f && f[x] == line.value(more[i]) {
      DefinesLater(line, made, more, n, i, x);
    } else if i :| DefinesLast(line, made, m, i, x) && x in d1 && d1[x] == line.value(made[i]) {
      assert forall j :: m <= j < m + n ==> all[j] == more[j - m];
      assert DefinesLast(line, all, m + n, i, x);
    } else {
      assert forall j :: m <= j < m + n ==> all[j] == more[j - m];
    }
  }

  lemma DefinesLater(line: Line, made: seq<Definitions>, more: seq<Definitions>, n: nat, i: nat, x: string)
    requires n <= |more| && DefinesLast(line, more, n, i, x)
    ensures DefinesLast(line, made + more, |made| + n, |made| + i, x) && (made + more)[|made| + i] == more[i]
  {
    var all, m := made + more, |made|;
    assert forall j :: m <= j < |all| ==> all[j] == more[j - m];
  }

  lemma DefinedBefore(line: Line, d: Definitions, made: seq<Definitions>, more: seq<Definitions>, n: nat, f: Definitions,
                      x: string)
    requires n <= |made| && LastDefined(line, d, made, n, f, x)
    ensures LastDefined(line, d, made + more, n, f, x)
  {
    assert forall i :: 0 <= i < n ==> (made + more)[i] == made[i];
    if i :| DefinesLast(line, made, n, i, x) && x in f && f[x] == line.value(made[i]) {
      assert DefinesLast(line, made + more, n, i, x);
    }
  }

  lemma AccountsJoin(line: Line, d: Definitions, made: seq<Definitions>, d1: Definitions, e: Definitions,
                     more: seq<Definitions>, after: Definitions, x: string)
    requires Accounts(line, d, made, d1, x) && Agree(d1, e, x) && Accounts(line, e, more, after, x)
    ensures Accounts(line, d, made + more, after, x)
  {
    hide LastDefined, DefinesLast;
    DefinedAfter(line, d, made, d1, e, more, |more|, after, x);
    forall n | 0 <= n < |made + more| ensures LastDefined(line, d, made + more, n, (made + more)[n], x) {
      if n < |made| {
        DefinedBefore(line, d, made, more, n, made[n], x);
      } else {
        DefinedAfter(line, d, made, d1, e, more, n - |made|, more[n - |made|], x);
      }
    }
  }

  lemma NothingMade(line: Line, d: Definitions, x: string)
    ensures Accounts(line, d, [], d, x)
  {
  }

  lemma OnceMade(line: Line, d: Definitions, x: string)
    ensures Accounts(line, d, [d], Leaf(d, line), x)
  {
    if line.key(d) == x {
      assert DefinesLast(line, [d], 1, 0, x);
    }
  }

  /** A name that no loop has is defined by the line itself: each time the line is made it gives its key its value, and
  the last time counts, for the times that follow and in the end. */
  lemma {:induction false} LineDefines(loops: seq<Loop>, d: Definitions, line: Line, x: string)
    requires !Names(loops, x)
    ensures Accounts(line, d, Resolved(loops, d, line).0, Resolved(loops, d, line).1, x)
    decreases |loops|, 1, 0
  {
    if loops == [] {
      OnceMade(line, d, x);
    } else {
      TurnsDefine(loops, |loops[0].values|, d, line, x);
    }
  }

  lemma {:induction false} TurnsDefine(loops: seq<Loop>, n: nat, d: Definitions, line: Line, x: string)
    requires !Names(loops, x) && loops != [] && n <= |loops[0].values|
    ensures Accounts(line, d, Turns(loops, n, d, line).0, Turns(loops, n, d, line).1, x)
    decreases |loops|, 0, n
  {
    hide Accounts, Resolved;
    if n == 0 {
      NothingMade(line, d, x);
    } else {
      var (made, d1) := Turns(loops, n - 1, d, line);
      TurnsDefine(loops, n - 1, d, line, x);
      var e := d1[loops[0].iter := loops[0].values[n - 1]];
      assert !Names(loops[1..], x) && x != loops[0].iter by {
        assert forall k :: 0 <= k < |loops| - 1 ==> loops[1..][k] == loops[k + 1];
      }
      LineDefines(loops[1..], e, line, x);
      var (more, d2) := Resolved(loops[1..], e, line);
      AccountsJoin(line, d, made, d1, e, more, d2, x);
    }
  }

  // The parser

  function Digit(n: nat): char
    requires n < 10
  {
    '0' + n as char
  }

  function Decimal(n: nat): (s: string)
    ensures |s| > 0
  {
    if n < 10 then [Digit(n)] else Decimal(n / 10) + [Digit(n % 10)]
  }

  lemma {:induction false} DecimalInjective(m: nat, n: nat)
    requires Decimal(m) == Decimal(n)
    ensures m == n
  {
    var s := Decimal(m);
    assert s[|s| - 1] == Digit(m % 10) == Digit(n % 10);
    if m >= 10 && n >= 10 {
      assert s[..|s| - 1] == Decimal(m / 10) == Decimal(n / 10);
      DecimalInjective(m / 10, n / 10);
    }
  }

  function ValueOf(digits: string): int {
    if digits == [] then 0 else 10 * ValueOf(digits[..|digits| - 1]) + (digits[|digits| - 1] as int - '0' as int)
  }

  /** The decimal digits of a number, without leading zeros. */
  lemma {:induction false} DecimalMeans(n: nat)
    ensures ValueOf(Decimal(n)) == n && forall i :: 0 <= i < |Decimal(n)| ==> '0' <= Decimal(n)[i] <= '9'
    ensures Decimal(n)[0] == '0' ==> n == 0
  {
    if n >= 10 {
      DecimalMeans(n / 10);
      assert Decimal(n)[..|Decimal(n)| - 1] == Decimal(n / 10);
    } else {
      assert ValueOf([]) == 0 && Decimal(n)[..0] == [];
    }
  }

  predicate Blank(c: char) {
    c == ' ' || '\t' <= c <= '\r'
  }

  function TrimLeft(s: string): (r: string)
    ensures |r| <= |s|
  {
    if s != [] && Blank(s[0]) then TrimLeft(s[1..]) else s
  }

  function TrimRight(s: string): (r: string)
    ensures |r| <= |s|
  {
    if s != [] && Blank(s[|s| - 1]) then TrimRight(s[..|s| - 1]) else s
  }

  function Trim(s: string): string {
    TrimRight(TrimLeft(s))
  }

  predicate AllBlank(s: string) {
    forall i :: 0 <= i < |s| ==> Blank(s[i])
  }

  lemma {:induction false} TrimLeftMeans(s: string) returns (left: string)
    ensures s == left + TrimLeft(s) && AllBlank(left) && (TrimLeft(s) != [] ==> !Blank(TrimLeft(s)[0]))
  {
    if s != [] && Blank(s[0]) {
      left := TrimLeftMeans(s[1..]);
      left := [s[0]] + left;
      assert s == [s[0]] + s[1..];
    } else {
      left := [];
    }
  }

  lemma {:induction false} TrimRightMeans(s: string) returns (right: string)
    ensures s == TrimRight(s) + right && AllBlank(right)
    ensures TrimRight(s) != [] ==> !Blank(TrimRight(s)[|TrimRight(s)| - 1]) && TrimRight(s)[0] == s[0]
  {
    if s != [] && Blank(s[|s| - 1]) {
      right := TrimRightMeans(s[..|s| - 1]);
      right := right + [s[|s| - 1]];
      assert s == s[..|s| - 1] + [s[|s| - 1]];
    } else {
      right := [];
    }
  }

  /** Trimming takes exactly the blanks at both ends away. */
  lemma TrimMeans(s: string) returns (left: string, right: string)
    ensures s == left + Trim(s) + right && AllBlank(left) && AllBlank(right)
    ensures Trim(s) != [] ==> !Blank(Trim(s)[0]) && !Blank(Trim(s)[|Trim(s)| - 1])
  {
    left := TrimLeftMeans(s);
    right := TrimRightMeans(TrimLeft(s));
  }

  /** The last position of a character. */
  function LastColon(s: string): (r: Option<nat>)
    ensures r.Some? ==> r.value < |s| && s[r.value] == ':' && ':' !in s[r.value + 1..]
    ensures r.None? ==> ':' !in s
  {
    if s == [] then None
    else if s[|s| - 1] == ':' then Some(|s| - 1)
    else LastColon(s[..|s| - 1])
  }

  /** The last position of the keyword that closes the head of a loop. */
  function LastDo(s: string): (r: Option<nat>)
    ensures r.Some? ==> r.value + 2 <= |s| && s[r.value..r.value + 2] == "do"
  {
    if |s| < 2 then None
    else if s[|s| - 2] == 'd' && s[|s| - 1] == 'o' then Some(|s| - 2)
    else LastDo(s[..|s| - 1])
  }

  lemma {:induction false} LastDoIsLast(s: string, i: nat)
    requires i + 2 <= |s| && s[i] == 'd' && s[i + 1] == 'o'
    ensures LastDo(s).Some? && i <= LastDo(s).value
  {
    if i + 2 < |s| && LastDo(s) != Some(|s| - 2) {
      LastDoIsLast(s[..|s| - 1], i);
    }
  }

  /** The iterator and the bounds of a loop line. The iterator is what stands between the keyword and the character
  before the last colon; without any such character it is the rest of the line. */
  function LoopLine(expr: string): Option<(string, string)>
    requires "for " <= expr || expr == "for"
  {
    match (LastColon(expr), LastDo(expr))
    case (Some(colon), Some(last)) =>
      if colon >= last then None
      else
        var iter := if colon == 4 then expr[4..] else expr[4..colon - 1];
        Some((Trim(iter), Trim(expr[colon + 1..last])))
    case _ => None
  }

  /** A line of the documented form: the bounds are read whole, the iterator without the character before the colon. */
  lemma LoopLineParts(name: string, bounds: string)
    requires name != [] && ':' !in bounds
    ensures LoopLine("for " + (name + (":" + (bounds + "do")))) == Some((Trim(name[..|name| - 1]), Trim(bounds)))
  {
    hide LastColon, LastDo, Trim;
    var rest := bounds + "do";
    var front := "for " + name;
    var expr := "for " + (name + (":" + rest));
    assert expr == front + ":" + rest;
    ColonAt(front, rest);
    assert expr == (front + ":" + bounds) + "do";
    DoAtEnd(front + ":" + bounds);
    assert expr[4..|front| - 1] == name[..|name| - 1];
    assert expr[|front| + 1..|expr| - 2] == bounds;
  }

  lemma DoAtEnd(s: string)
    ensures LastDo(s + "do") == Some(|s|)
  {
    var t := s + "do";
    assert t[|t| - 2] == 'd' && t[|t| - 1] == 'o';
  }

  lemma {:induction false} ColonAt(head: string, tail: string)
    requires ':' !in tail
    ensures LastColon(head + ":" + tail) == Some(|head|)
  {
    var s := head + ":" + tail;
    if tail != [] {
      assert s[|s| - 1] == tail[|tail| - 1];
      assert s[..|s| - 1] == head + ":" + tail[..|tail| - 1];
      ColonAt(head, tail[..|tail| - 1]);
    }
  }

  lemma {:induction false} TrimLeftAppend(s: string, c: char)
    ensures TrimLeft(s + [c]) == if TrimLeft(s) == [] && Blank(c) then [] else TrimLeft(s) + [c]
  {
    if s != [] && Blank(s[0]) {
      assert (s + [c])[1..] == s[1..] + [c];
      TrimLeftAppend(s[1..], c);
    } else if s == [] {
      assert s + [c] == [c] && [c][1..] == [];
    }
  }

  /** So the iterator has its whole name exactly if there is a blank before the colon. */
  lemma IteratorNeedsBlank(name: string)
    requires name != []
    ensures Trim(name[..|name| - 1]) == Trim(name) <==> Blank(name[|name| - 1])
  {
    var init, c := name[..|name| - 1], name[|name| - 1];
    assert name == init + [c];
    TrimLeftAppend(init, c);
    var left := TrimLeft(init);
    assert (left + [c])[..|left|] == left;
    assert left == [] && Blank(c) ==> TrimLeft(name) == left;
  }

  class BrokerFile {
    var definitions: Definitions
    /** The open loops, innermost first. */
    var loops: seq<Loop>
    var errors: nat
    /** The definitions that held each time a line was made. */
    ghost var made: seq<Definitions>

    constructor ()
      ensures definitions == map[] && loops == [] && errors == 0 && made == []
    {
      definitions, loops, errors, made := map[], [], 0, [];
    }

    /** A line that opens a loop; it may be malformed. How its bounds expand and what number they are is given. */
    method ParseLoop(expr: string, expand: string -> string, number: string -> nat)
      requires "for " <= expr || expr == "for"
      modifies this`loops, this`errors
      ensures match LoopLine(expr)
        case None => loops == old(loops) && errors == old(errors) + 1
        case Some((iter, bounds)) =>
          && errors == old(errors) && |loops| == |old(loops)| + 1 && loops[1..] == old(loops)
          && loops[0].iter == iter && |loops[0].values| == number(expand(bounds)) && Distinct(loops[0].values)
          && forall i :: 0 <= i < |loops[0].values| ==> loops[0].values[i] == Decimal(i)
    {
      hide LastColon, LastDo, Trim, Decimal;
      var colon, last := LastColon(expr), LastDo(expr);
      if colon.None? || last.None? || colon.value >= last.value {
        errors := errors + 1;
        return;
      }
      var iter := Trim(if colon.value == 4 then expr[4..] else expr[4..colon.value - 1]);
      var bounds := expand(Trim(expr[colon.value + 1..last.value]));
      var limit := number(bounds);
      var values := [];
      for i := 0 to limit
        invariant |values| == i && forall k :: 0 <= k < i ==> values[k] == Decimal(k)
      {
        values := values + [Decimal(i)];
      }
      forall i, j | 0 <= i < j < |values| ensures values[i] != values[j] {
        if values[i] == values[j] {
          DecimalInjective(i, j);
        }
      }
      loops := [Loop(iter, values)] + loops;
    }

    /** A line that closes the innermost loop. */
    method ParseDone()
      modifies this`loops, this`errors
      ensures if old(loops) == [] then loops == [] && errors == old(errors) + 1
              else loops == old(loops)[1..] && errors == old(errors)
    {
      if loops == [] {
        errors := errors + 1;
        return;
      }
      loops := loops[1..];
    }

    /** Make a line inside of the open loops. */
    method Resolve(line: Line)
      modifies this
      ensures loops == old(loops) && errors == old(errors)
      ensures var (more, after) := Resolved(loops, old(definitions), line);
        made == old(made) + more && definitions == after
      decreases |loops|
    {
      if loops == [] {
        made := made + [definitions];
        definitions := definitions[line.key(definitions) := line.value(definitions)];
        return;
      }
      var loop := loops[0];
      ghost var all := loops;
      loops := loops[1..];
      var i := 0;
      while i < |loop.values|
        invariant i <= |loop.values| && loops == all[1..] && errors == old(errors)
        invariant var (more, after) := Turns(all, i, old(definitions), line);
          made == old(made) + more && definitions == after
      {
        definitions := definitions[loop.iter := loop.values[i]];
        Resolve(line);
        i := i + 1;
      }
      loops := [loop] + loops;
    }
  }
}
