/** Small text vocabulary shared by the models: options, searching, splitting and joining. */
module Text {
  datatype Option<+T> = None | Some(value: T)

  /** At most one element. */
  function Elements<T>(o: Option<T>): seq<T> {
    if o.Some? then [o.value] else []
  }

  /** Position of the first `c` in `s`, or -1. */
  function IndexOf(s: string, c: char): (r: int)
    ensures -1 <= r < |s|
    ensures r >= 0 ==> s[r] == c
    ensures forall i :: 0 <= i < |s| && s[i] == c ==> 0 <= r <= i
  {
    if s == [] then -1
    else if s[0] == c then 0
    else
      var t := IndexOf(s[1..], c);
      if t == -1 then
        assert forall i :: 0 < i < |s| ==> s[i] == s[1..][i - 1];
        -1
      else t + 1
  }

  /** The pieces of `s` between line feeds; always at least one piece. */
  function Split(s: string): (lines: seq<string>)
    ensures |lines| >= 1
    decreases |s|
  {
    var k := IndexOf(s, '\n');
    if k == -1 then [s] else [s[..k]] + Split(s[k + 1..])
  }

  /** The pieces with one line feed between neighbours. */
  function Join(lines: seq<string>): string {
    if lines == [] then ""
    else if |lines| == 1 then lines[0]
    else lines[0] + "\n" + Join(lines[1..])
  }

  lemma JoinCons(first: string, later: seq<string>)
    requires later != []
    ensures Join([first] + later) == first + "\n" + Join(later)
  {
    assert ([first] + later)[1..] == later;
  }

  lemma JoinOne(line: string)
    ensures Join([line]) == line
  {
  }

  lemma PartsAround(s: string, k: nat)
    requires k < |s| && s[k] == '\n'
    ensures s[..k] + "\n" + s[k + 1..] == s
  {
  }

  lemma {:induction false} JoinSplit(s: string)
    ensures Join(Split(s)) == s
    decreases |s|
  {
    hide Join, IndexOf;
    var k := IndexOf(s, '\n');
    if k == -1 {
      JoinOne(s);
    } else {
      JoinSplit(s[k + 1..]);
      JoinCons(s[..k], Split(s[k + 1..]));
      PartsAround(s, k);
    }
  }

  predicate LfFree(line: string) {
    '\n' !in line
  }

  lemma {:induction false} SplitLfFree(s: string)
    ensures forall i :: 0 <= i < |Split(s)| ==> LfFree(Split(s)[i])
    decreases |s|
  {
    var k := IndexOf(s, '\n');
    if k != -1 {
      SplitLfFree(s[k + 1..]);
    }
  }

  function Concat<T>(parts: seq<seq<T>>): seq<T> {
    if parts == [] then [] else parts[0] + Concat(parts[1..])
  }

  lemma Assoc<T>(a: seq<T>, b: seq<T>, c: seq<T>)
    ensures a + (b + c) == (a + b) + c
  {
  }

  lemma Tail<T>(a: seq<T>, b: seq<T>)
    requires a != []
    ensures (a + b)[0] == a[0] && (a + b)[1..] == a[1..] + b
  {
  }

  lemma Empty<T>(a: seq<T>)
    ensures [] + a == a && a + [] == a
  {
  }

  lemma {:induction false} ConcatAppend<T>(a: seq<seq<T>>, b: seq<seq<T>>)
    ensures Concat(a + b) == Concat(a) + Concat(b)
  {
    if a == [] {
      Empty(b);
      Empty(Concat(b));
    } else {
      Tail(a, b);
      ConcatAppend(a[1..], b);
      Assoc(a[0], Concat(a[1..]), Concat(b));
    }
  }

  predicate Digits(s: string) {
    forall i :: 0 <= i < |s| ==> '0' <= s[i] <= '9'
  }

  /** Decimal digits of a natural number, without leading zeros. */
  function Decimal(n: nat): (s: string)
    ensures s != "" && Digits(s)
  {
    if n < 10 then ["0123456789"[n]] else Decimal(n / 10) + ["0123456789"[n % 10]]
  }

  /** The number that decimal digits stand for. */
  function Numeral(s: string): nat
    requires Digits(s)
  {
    if s == "" then 0 else 10 * Numeral(s[..|s| - 1]) + (s[|s| - 1] as int - '0' as int)
  }

  lemma {:induction false} DecimalIsNumeral(n: nat)
    ensures Numeral(Decimal(n)) == n
    ensures |Decimal(n)| > 1 ==> Decimal(n)[0] != '0'
  {
    LastDigit(n % 10);
    if n >= 10 {
      DecimalIsNumeral(n / 10);
      var s := Decimal(n);
      assert s[..|s| - 1] == Decimal(n / 10);
      LeadingDigit(n / 10);
    }
  }

  lemma LastDigit(d: nat)
    requires d < 10
    ensures "0123456789"[d] as int - '0' as int == d
  {
  }

  lemma {:induction false} LeadingDigit(n: nat)
    requires n > 0
    ensures Decimal(n)[0] != '0'
  {
    if n >= 10 { LeadingDigit(n / 10); } else { LastDigit(n); }
  }
}
