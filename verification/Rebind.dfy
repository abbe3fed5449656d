/** rebindDollar of store/dialect.go, judged by what the two placeholder styles bind. */
module Rebind {
  import opened Text

  function Argument(args: seq<string>, k: int): string { if 0 <= k < |args| then args[k] else "" }

  /** Every question mark takes the next argument, the first one argument n. */
  function BindMarks(q: string, args: seq<string>, n: nat): string {
    if q == "" then ""
    else if q[0] == '?' then Argument(args, n) + BindMarks(q[1..], args, n + 1)
    else [q[0]] + BindMarks(q[1..], args, n)
  }

  lemma {:induction false} DigitsLeaveLess(s: string, acc: nat)
    ensures |ReadDigits(s, acc).1| <= |s|
  {
    if s != "" && IsDigit(s[0]) {
      DigitsLeaveLess(s[1..], 10 * acc + DigitValue(s[0]));
    }
  }

  /** A dollar and a number k take argument k, counted from 1. */
  function BindDollars(q: string, args: seq<string>): string
    decreases |q|
  {
    if q == "" then ""
    else if q[0] == '$' && |q| > 1 && IsDigit(q[1]) then
      var (k, rest) := ReadDigits(q[1..], 0);
      DigitsLeaveLess(q[1..], 0);
      Argument(args, k - 1) + BindDollars(rest, args)
    else [q[0]] + BindDollars(q[1..], args)
  }

  /** The text with its question marks numbered from n + 1 on. */
  function Numbered(q: string, n: nat): string {
    if q == "" then ""
    else if q[0] == '?' then "$" + Decimal(n + 1) + Numbered(q[1..], n + 1)
    else [q[0]] + Numbered(q[1..], n)
  }

  lemma NumberedFrom(q: string, i: nat, n: nat)
    requires i < |q|
    ensures Numbered(q[i..], n) ==
            if q[i] == '?' then ("$" + Decimal(n + 1)) + Numbered(q[i + 1..], n + 1)
            else [q[i]] + Numbered(q[i + 1..], n)
  {
    hide Decimal;
    assert q[i..][1..] == q[i + 1..];
  }

  method RebindDollar(query: string) returns (r: string)
    ensures r == Numbered(query, 0)
  {
    r := "";
    var n := 0;
    assert query[0..] == query && query[|query|..] == "";
    ghost var whole := Numbered(query, 0);
    for i := 0 to |query|
      invariant r + Numbered(query[i..], n) == whole
    {
      hide Numbered, Decimal;
      NumberedFrom(query, i, n);
      if query[i] != '?' {
        r := r + [query[i]];
        continue;
      }
      n := n + 1;
      r := r + ("$" + Decimal(n));
    }
  }

  /** Position i runs a dollar or a question mark into a digit. */
  predicate RunsIntoDigit(q: string, i: nat) {
    i + 1 < |q| && (q[i] == '$' || q[i] == '?') && IsDigit(q[i + 1])
  }

  /** No number in the text is mistaken for part of a placeholder: true of the package's queries. */
  ghost predicate Rebindable(q: string) {
    forall i: nat :: !RunsIntoDigit(q, i)
  }

  lemma RestRebindable(q: string)
    requires q != ""
    ensures Rebindable(q) <==> !RunsIntoDigit(q, 0) && Rebindable(q[1..])
  {
    assert forall i: nat :: RunsIntoDigit(q[1..], i) <==> RunsIntoDigit(q, i + 1);
    forall i: nat | RunsIntoDigit(q, i) ensures i == 0 || RunsIntoDigit(q[1..], i - 1) {
    }
  }

  lemma BoundNumber(k: nat, out: string, args: seq<string>)
    ensures var (n, rest) := ReadDigits(out, k);
            |rest| <= |out| && BindDollars("$" + Decimal(k) + out, args) == Argument(args, n - 1) + BindDollars(rest, args)
  {
    hide Decimal;
    var all := "$" + Decimal(k) + out;
    assert all[1..] == Decimal(k) + out;
    ReadDecimal(k, out);
    DigitsLeaveLess(out, k);
  }

  lemma NumberedStart(q: string, n: nat)
    ensures q == "" <==> Numbered(q, n) == ""
    ensures q != "" ==> Numbered(q, n)[0] == if q[0] == '?' then '$' else q[0]
  {
  }

  /** Both forms bind the same arguments in the same places. */
  lemma {:induction false} RebindKeepsMeaning(q: string, args: seq<string>, n: nat)
    requires Rebindable(q)
    ensures BindDollars(Numbered(q, n), args) == BindMarks(q, args, n)
  {
    if q != "" {
      var rest := q[1..];
      RestRebindable(q);
      assert rest != "" ==> rest[0] == q[1];
      if q[0] == '?' {
        RebindKeepsMeaning(rest, args, n + 1);
        NumberedStart(rest, n + 1);
        hide BindDollars;
        BoundNumber(n + 1, Numbered(rest, n + 1), args);
      } else {
        RebindKeepsMeaning(rest, args, n);
        NumberedStart(rest, n);
        assert Numbered(q, n)[1..] == Numbered(rest, n);
      }
    }
  }

  // ---------------------------------------------------------------- exactly when

  /** The text after its leading digits. */
  function AfterDigits(q: string): (r: string)
    ensures |r| <= |q|
  {
    if q != "" && IsDigit(q[0]) then AfterDigits(q[1..]) else q
  }

  lemma {:induction false} NumberedDigits(q: string, n: nat, acc: nat)
    ensures ReadDigits(Numbered(q, n), acc).1 == Numbered(AfterDigits(q), n)
    ensures |BindMarks(q, [], n)| == |q| - |AfterDigits(q)| + |BindMarks(AfterDigits(q), [], n)|
  {
    NumberedStart(q, n);
    if q != "" && IsDigit(q[0]) {
      assert Numbered(q, n)[1..] == Numbered(q[1..], n);
      NumberedDigits(q[1..], n, 10 * acc + DigitValue(q[0]));
    }
  }

  lemma {:induction false} DigitsRebindable(q: string)
    ensures Rebindable(q) <==> Rebindable(AfterDigits(q))
  {
    if q != "" && IsDigit(q[0]) {
      RestRebindable(q);
      DigitsRebindable(q[1..]);
    }
  }

  /** With no arguments at all every placeholder leaves nothing, so a digit or dollar taken
      for part of one is missed in the length. */
  lemma {:induction false} LostDigits(q: string, n: nat)
    ensures |BindDollars(Numbered(q, n), [])| <= |BindMarks(q, [], n)|
    ensures !Rebindable(q) ==> |BindDollars(Numbered(q, n), [])| < |BindMarks(q, [], n)|
    decreases |q|, 0
  {
    if q != "" {
      var rest := q[1..];
      RestRebindable(q);
      assert rest != "" ==> rest[0] == q[1];
      if q[0] == '?' {
        LostAfter(rest, n + 1);
        hide BindDollars;
        BoundNumber(n + 1, Numbered(rest, n + 1), []);
        NumberedDigits(rest, n + 1, n + 1);
      } else {
        assert Numbered(q, n)[1..] == Numbered(rest, n);
        NumberedStart(rest, n);
        if RunsIntoDigit(q, 0) {
          LostAfter(rest, n);
          NumberedDigits(rest, n, 0);
          DigitsLeaveLess(Numbered(rest, n), 0);
        } else {
          LostDigits(rest, n);
        }
      }
    }
  }

  /** The same for what stands after the leading digits. */
  lemma {:induction false} LostAfter(q: string, n: nat)
    ensures |BindDollars(Numbered(AfterDigits(q), n), [])| <= |BindMarks(AfterDigits(q), [], n)|
    ensures !Rebindable(q) ==>
              |BindDollars(Numbered(AfterDigits(q), n), [])| < |BindMarks(AfterDigits(q), [], n)|
    decreases |q|, 1
  {
    LostDigits(AfterDigits(q), n);
    DigitsRebindable(q);
  }

  /** The two forms mean the same for all arguments exactly when nothing runs into a digit. */
  lemma RebindExactlyWhen(q: string)
    ensures (forall args: seq<string> :: BindDollars(Numbered(q, 0), args) == BindMarks(q, args, 0)) <==> Rebindable(q)
  {
    if Rebindable(q) {
      forall args: seq<string> ensures BindDollars(Numbered(q, 0), args) == BindMarks(q, args, 0) {
        RebindKeepsMeaning(q, args, 0);
      }
    } else {
      LostDigits(q, 0);
    }
  }
}
