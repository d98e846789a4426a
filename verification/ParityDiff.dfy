/** The comparison of two trial balances: what it reports, and when silence means that they are equal. */
module ParityDiff {

  datatype Row = Row(account: string, name: string, accountClass: int,
                     openingDebit: real, openingCredit: real, periodDebit: real, periodCredit: real,
                     closingDebit: real, closingCredit: real)

  datatype Field = OpeningDebit | OpeningCredit | PeriodDebit | PeriodCredit | ClosingDebit | ClosingCredit

  const AMOUNT_FIELDS := [OpeningDebit, OpeningCredit, PeriodDebit, PeriodCredit, ClosingDebit, ClosingCredit]

  datatype Difference =
    | OnlyInRpc(account: string, row: Row)
    | OnlyInLegacy(account: string, row: Row)
    | LabelDiffers(account: string)
    | AmountDiffers(account: string, field: Field)
    | OrderDiffers

  function AmountOf(r: Row, f: Field): real {
    match f
    case OpeningDebit => r.openingDebit
    case OpeningCredit => r.openingCredit
    case PeriodDebit => r.periodDebit
    case PeriodCredit => r.periodCredit
    case ClosingDebit => r.closingDebit
    case ClosingCredit => r.closingCredit
  }

  /** The row of each account; of several rows with one account the last is kept. */
  function ByAccount(rows: seq<Row>): map<string, Row> {
    if rows == [] then map[] else ByAccount(rows[..|rows| - 1])[rows[|rows| - 1].account := rows[|rows| - 1]]
  }

  lemma {:induction false} ByAccountKeepsRows(rows: seq<Row>)
    ensures forall account | account in ByAccount(rows) ::
              ByAccount(rows)[account].account == account && ByAccount(rows)[account] in rows
    ensures forall row | row in rows :: row.account in ByAccount(rows)
  {
    if rows != [] {
      ByAccountKeepsRows(rows[..|rows| - 1]);
      assert rows == rows[..|rows| - 1] + [rows[|rows| - 1]];
    }
  }

  function Accounts(rows: seq<Row>): (r: seq<string>)
    ensures |r| == |rows|
  {
    seq(|rows|, i requires 0 <= i < |rows| => rows[i].account)
  }

  function Join(parts: seq<string>): string {
    if parts == [] then ""
    else if |parts| == 1 then parts[0]
    else parts[0] + "," + Join(parts[1..])
  }

  /** A difference of one account, between the two rows that the lists keep for it. */
  ghost predicate Differs(l: map<string, Row>, r: map<string, Row>, d: Difference) {
    match d
    case OnlyInRpc(account, row) => account in r && account !in l && row == r[account]
    case OnlyInLegacy(account, row) => account in l && account !in r && row == l[account]
    case LabelDiffers(account) =>
      account in l && account in r
        && (l[account].name != r[account].name || l[account].accountClass != r[account].accountClass)
    case AmountDiffers(account, field) =>
      account in l && account in r && AmountOf(l[account], field) != AmountOf(r[account], field)
    case OrderDiffers => false
  }

  /** The account a difference is about. */
  function About(d: Difference): string {
    match d
    case OrderDiffers => ""
    case _ => d.account
  }

  /** No difference between two maps is reported exactly when they are equal. */
  lemma NoDifferenceMeansEqual(l: map<string, Row>, r: map<string, Row>)
    requires forall account | account in l :: l[account].account == account
    requires forall account | account in r :: r[account].account == account
    ensures (forall d :: !Differs(l, r, d)) <==> l == r
  {
    if forall d :: !Differs(l, r, d) {
      forall account | account in l
        ensures account in r
      {
        assert !Differs(l, r, OnlyInLegacy(account, l[account]));
      }
      forall account | account in r
        ensures account in l
      {
        assert !Differs(l, r, OnlyInRpc(account, r[account]));
      }
      forall account | account in l
        ensures l[account] == r[account]
      {
        assert !Differs(l, r, LabelDiffers(account));
        forall f: Field
          ensures AmountOf(l[account], f) == AmountOf(r[account], f)
        {
          assert !Differs(l, r, AmountDiffers(account, f));
        }
        assert AmountOf(l[account], OpeningDebit) == AmountOf(r[account], OpeningDebit);
        assert AmountOf(l[account], OpeningCredit) == AmountOf(r[account], OpeningCredit);
        assert AmountOf(l[account], PeriodDebit) == AmountOf(r[account], PeriodDebit);
        assert AmountOf(l[account], PeriodCredit) == AmountOf(r[account], PeriodCredit);
        assert AmountOf(l[account], ClosingDebit) == AmountOf(r[account], ClosingDebit);
        assert AmountOf(l[account], ClosingCredit) == AmountOf(r[account], ClosingCredit);
      }
    }
  }

  /** The differences of one account; a difference of amounts names the column in which the rows differ. */
  method DiffAccount(l: map<string, Row>, r: map<string, Row>, account: string) returns (out: seq<Difference>)
    requires account in l || account in r
    ensures forall d :: d in out <==> Differs(l, r, d) && About(d) == account
    ensures account in l && account in r ==>
              var a, b := l[account], r[account];
              && (AmountDiffers(account, OpeningDebit) in out <==> a.openingDebit != b.openingDebit)
              && (AmountDiffers(account, OpeningCredit) in out <==> a.openingCredit != b.openingCredit)
              && (AmountDiffers(account, PeriodDebit) in out <==> a.periodDebit != b.periodDebit)
              && (AmountDiffers(account, PeriodCredit) in out <==> a.periodCredit != b.periodCredit)
              && (AmountDiffers(account, ClosingDebit) in out <==> a.closingDebit != b.closingDebit)
              && (AmountDiffers(account, ClosingCredit) in out <==> a.closingCredit != b.closingCredit)
  {
    if account !in l {
      return [OnlyInRpc(account, r[account])];
    }
    if account !in r {
      return [OnlyInLegacy(account, l[account])];
    }
    out := [];
    if l[account].name != r[account].name || l[account].accountClass != r[account].accountClass {
      out := out + [LabelDiffers(account)];
    }
    for i := 0 to |AMOUNT_FIELDS|
      invariant forall d :: d in out <==>
                  && Differs(l, r, d) && About(d) == account
                  && (d.LabelDiffers? || (d.AmountDiffers? && d.field in AMOUNT_FIELDS[..i]))
    {
      var field := AMOUNT_FIELDS[i];
      assert AMOUNT_FIELDS[..i + 1] == AMOUNT_FIELDS[..i] + [field];
      if AmountOf(l[account], field) != AmountOf(r[account], field) {
        out := out + [AmountDiffers(account, field)];
      }
    }
    EveryFieldIsCompared();
  }

  lemma EveryFieldIsCompared()
    ensures forall f: Field :: f in AMOUNT_FIELDS[..|AMOUNT_FIELDS|]
  {
    assert AMOUNT_FIELDS[..|AMOUNT_FIELDS|] == AMOUNT_FIELDS;
    forall f: Field
      ensures f in AMOUNT_FIELDS
    {
      match f
      case OpeningDebit => assert AMOUNT_FIELDS[0] == f;
      case OpeningCredit => assert AMOUNT_FIELDS[1] == f;
      case PeriodDebit => assert AMOUNT_FIELDS[2] == f;
      case PeriodCredit => assert AMOUNT_FIELDS[3] == f;
      case ClosingDebit => assert AMOUNT_FIELDS[4] == f;
      case ClosingCredit => assert AMOUNT_FIELDS[5] == f;
    }
  }

  /** Reports every difference there is and no other; the order only when the rows agree account by account. */
  method DiffRows(legacy: seq<Row>, rpc: seq<Row>) returns (out: seq<Difference>)
    ensures forall d :: d in out <==>
              if d == OrderDiffers
              then ByAccount(legacy) == ByAccount(rpc) && Join(Accounts(legacy)) != Join(Accounts(rpc))
              else Differs(ByAccount(legacy), ByAccount(rpc), d)
    ensures out == [] <==> Undetected(legacy, rpc)
  {
    hide AmountOf, ByAccount;
    out := [];
    var l, r := ByAccount(legacy), ByAccount(rpc);
    ByAccountKeepsRows(legacy);
    ByAccountKeepsRows(rpc);
    var todo := l.Keys + r.Keys;
    while todo != {}
      invariant todo <= l.Keys + r.Keys
      invariant forall d :: d in out <==> Differs(l, r, d) && About(d) !in todo
      decreases todo
    {
      var account :| account in todo;
      var found := DiffAccount(l, r, account);
      out := out + found;
      todo := todo - {account};
    }
    NoDifferenceMeansEqual(l, r);
    assert out == [] <==> l == r by {
      if out != [] {
        assert out[0] in out && Differs(l, r, out[0]);
      }
    }
    if |out| == 0 && Join(Accounts(legacy)) != Join(Accounts(rpc)) {
      out := out + [OrderDiffers];
    }
  }

  /** The comparison reports nothing about two lists. */
  predicate Undetected(legacy: seq<Row>, rpc: seq<Row>) {
    ByAccount(legacy) == ByAccount(rpc) && Join(Accounts(legacy)) == Join(Accounts(rpc))
  }

  // ------------------------------------------------------------ what silence means

  predicate CommaFree(rows: seq<Row>) {
    forall i | 0 <= i < |rows| :: ',' !in rows[i].account
  }

  predicate UniqueAccounts(rows: seq<Row>) {
    forall i, j | 0 <= i < j < |rows| :: rows[i].account != rows[j].account
  }

  lemma StartsWithComma(a: string, x: string)
    requires ',' !in a
    ensures (a + "," + x)[0] == ',' <==> a == ""
  {
  }

  /** A text up to its first comma, and what follows, can be read off again. */
  lemma {:induction false} SplitAtComma(a: string, b: string, x: string, y: string)
    requires ',' !in a && ',' !in b && a + "," + x == b + "," + y
    ensures a == b && x == y
  {
    var s, t := a + "," + x, b + "," + y;
    StartsWithComma(a, x);
    StartsWithComma(b, y);
    if a == "" {
      assert s[1..] == x && t[1..] == y;
    } else {
      assert s[0] == a[0] && t[0] == b[0];
      assert s[1..] == a[1..] + "," + x && t[1..] == b[1..] + "," + y;
      SplitAtComma(a[1..], b[1..], x, y);
      assert a == [a[0]] + a[1..] && b == [b[0]] + b[1..];
    }
  }

  lemma CommaOnlyBetween(parts: seq<string>)
    requires |parts| >= 1 && ',' !in parts[0]
    ensures ',' in Join(parts) <==> |parts| > 1
  {
    if |parts| > 1 {
      assert Join(parts)[|parts[0]|] == ',';
    }
  }

  /** Joining comma-free parts loses nothing, apart from the one part "" that joins like no part at all. */
  lemma {:induction false} JoinIsInjective(a: seq<string>, b: seq<string>)
    requires (forall x | x in a :: ',' !in x) && (forall x | x in b :: ',' !in x)
    requires Join(a) == Join(b) && (a == [] <==> b == [])
    ensures a == b
  {
    if a != [] {
      CommaOnlyBetween(a);
      CommaOnlyBetween(b);
      if |a| > 1 {
        SplitAtComma(a[0], b[0], Join(a[1..]), Join(b[1..]));
        JoinIsInjective(a[1..], b[1..]);
        assert a == [a[0]] + a[1..] && b == [b[0]] + b[1..];
      }
    }
  }

  lemma {:induction false} UniqueRowsAreKept(rows: seq<Row>, i: nat)
    requires UniqueAccounts(rows) && i < |rows|
    ensures rows[i].account in ByAccount(rows) && ByAccount(rows)[rows[i].account] == rows[i]
  {
    var n := |rows| - 1;
    if i < n {
      UniqueRowsAreKept(rows[..n], i);
    }
  }

  /** Lists with unique accounts, all comma-free, go undetected only when they are equal row by row. */
  lemma SilenceMeansEqual(l: seq<Row>, r: seq<Row>)
    requires CommaFree(l) && CommaFree(r) && UniqueAccounts(l)
    requires Undetected(l, r)
    ensures l == r
  {
    ByAccountKeepsRows(l);
    ByAccountKeepsRows(r);
    assert l == [] <==> r == [] by {
      if l != [] {
        assert l[0] in l && l[0].account in ByAccount(r);
      }
      if r != [] {
        assert r[0] in r && r[0].account in ByAccount(l);
      }
    }
    JoinIsInjective(Accounts(l), Accounts(r));
    assert |l| == |Accounts(l)| == |Accounts(r)| == |r|;
    forall i | 0 <= i < |l|
      ensures l[i].account == r[i].account
    {
      assert Accounts(l)[i] == Accounts(r)[i];
    }
    forall i | 0 <= i < |l|
      ensures l[i] == r[i]
    {
      UniqueRowsAreKept(l, i);
      UniqueRowsAreKept(r, i);
    }
  }

  /** Sound and complete: for lists of unique, comma-free accounts nothing is reported exactly when they are equal. */
  lemma SoundAndComplete(l: seq<Row>, r: seq<Row>)
    requires CommaFree(l) && CommaFree(r) && UniqueAccounts(l) && UniqueAccounts(r)
    ensures Undetected(l, r) <==> l == r
  {
    if Undetected(l, r) {
      SilenceMeansEqual(l, r);
    }
  }

  /** A repeated account hides a difference: its earlier row is never looked at. */
  lemma RepeatedAccountHidesADifference(l: seq<Row>, i: nat, j: nat)
    requires i < j < |l| && l[i].account == l[j].account
    ensures var r := l[i := l[i].(name := l[i].name + "?")]; r != l && Undetected(l, r)
    decreases |l|
  {
    var r := l[i := l[i].(name := l[i].name + "?")];
    assert r[i].name != l[i].name;
    assert Accounts(r) == Accounts(l);
    OverwrittenLater(l, i, j, r[i]);
  }

  lemma LastRowWins(rows: seq<Row>)
    requires rows != []
    ensures ByAccount(rows) == ByAccount(rows[..|rows| - 1])[rows[|rows| - 1].account := rows[|rows| - 1]]
  {
  }

  lemma UpdateInPrefix(l: seq<Row>, i: nat, row: Row)
    requires i < |l| - 1
    ensures ByAccount(l[i := row]) == ByAccount(l[..|l| - 1][i := row])[l[|l| - 1].account := l[|l| - 1]]
  {
    assert l[i := row][..|l| - 1] == l[..|l| - 1][i := row];
  }

  lemma {:induction false} OverwrittenLater(l: seq<Row>, i: nat, j: nat, row: Row)
    requires i < j < |l| && l[i].account == l[j].account == row.account
    ensures ByAccount(l[i := row]) == ByAccount(l)
  {
    hide ByAccount;
    var n := |l| - 1;
    UpdateInPrefix(l, i, row);
    LastRowWins(l);
    if j < n {
      OverwrittenLater(l[..n], i, j, row);
    } else {
      OverwriteOne(l[..n], i, row, l[n]);
    }
  }

  lemma {:induction false} OverwriteOne(l: seq<Row>, i: nat, row: Row, x: Row)
    requires i < |l| && l[i].account == row.account
    ensures ByAccount(l[i := row])[row.account := x] == ByAccount(l)[row.account := x]
  {
    var n := |l| - 1;
    var r := l[i := row];
    if i < n {
      assert r[..n] == l[..n][i := row] && r[n] == l[n];
      OverwriteOne(l[..n], i, row, x);
      SameButOne(ByAccount(r[..n]), ByAccount(l[..n]), row.account, x, l[n]);
    } else {
      assert r[..n] == l[..n];
    }
  }

  lemma SameButOne(m: map<string, Row>, n: map<string, Row>, account: string, x: Row, last: Row)
    requires m[account := x] == n[account := x]
    ensures m[last.account := last][account := x] == n[last.account := last][account := x]
  {
    var p, q := m[last.account := last][account := x], n[last.account := last][account := x];
    assert p == m[account := x][last.account := last][account := x];
    assert q == n[account := x][last.account := last][account := x];
  }

  /** Among comma-free lists, a list is told apart from every other exactly when no account is repeated in it. */
  lemma CompleteExactlyWhen(l: seq<Row>)
    requires CommaFree(l)
    ensures (forall r | CommaFree(r) && Undetected(l, r) :: r == l) <==> UniqueAccounts(l)
  {
    if UniqueAccounts(l) {
      forall r | CommaFree(r) && Undetected(l, r)
        ensures r == l
      {
        SilenceMeansEqual(l, r);
      }
    } else {
      var i, j :| 0 <= i < j < |l| && l[i].account == l[j].account;
      RepeatedAccountHidesADifference(l, i, j);
      assert CommaFree(l[i := l[i].(name := l[i].name + "?")]);
    }
  }
}
