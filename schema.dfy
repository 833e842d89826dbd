/** `get_relevant_schema`: the table descriptions placed in the model prompt,
    chosen by keywords of the user's question. */
module SchemaContext {
  import opened Text

  // Each description line is written column by column; the pieces concatenate
  // to the exact line of the source.
  const CustomersLine :=
    "1. customers ("
    + "customer_id, "
    + "first_name, "
    + "last_name, "
    + "email, "
    + "phone, "
    + "registration_date)"
  const AddressesLine :=
    "2. customer_addresses ("
    + "address_id, "
    + "customer_id, "
    + "address_type, "
    + "street_address, "
    + "city, "
    + "state, "
    + "postal_code, "
    + "country)"
  const CreditScoresLine :=
    "3. credit_scores ("
    + "score_id, "
    + "customer_id, "
    + "credit_score, "
    + "score_status)"
  const TransactionsLine :=
    "4. customer_transactions ("
    + "transaction_id, "
    + "customer_id, "
    + "transaction_date, "
    + "amount, "
    + "transaction_type, "
    + "category)"
  const LoansLine :=
    "5. customer_loans ("
    + "loan_id, "
    + "customer_id, "
    + "principal_amount, "
    + "interest_rate, "
    + "start_date, "
    + "duration_months, "
    + "monthly_payment, "
    + "loan_status)"

  /** The fallback list, in table order. */
  const AllLines := [CustomersLine, AddressesLine, CreditScoresLine, TransactionsLine, LoansLine]

  const AddressWords := ["address", "city", "location", "state", "country"]
  const CreditWords := ["credit", "score", "rating"]
  const TransactionWords := ["transaction", "payment", "amount", "debit", "credit", "purchase"]
  const LoanWords := ["loan", "borrow", "interest", "emi", "payment"]

  /** A table by the number its description line starts with. */
  type TableNo = t: int | 1 <= t <= 5 witness 1

  /** Every table, in order. */
  const AllTables: seq<TableNo> := [1, 2, 3, 4, 5]

  function TableLine(t: TableNo): string {
    AllLines[t - 1]
  }

  /** For tables 2 to 5 in order: does one of the table's keywords occur in the
      lower-cased question (the four `any(...)` tests of lines 122-132)? */
  function Matches(query: string): (flags: seq<bool>)
    ensures |flags| == 4
  {
    var q := Lower(query);
    [ContainsAny(q, AddressWords), ContainsAny(q, CreditWords),
     ContainsAny(q, TransactionWords), ContainsAny(q, LoanWords)]
  }

  predicate Wanted(query: string, t: TableNo)
    requires t >= 2
  {
    Matches(query)[t - 2]
  }

  predicate NothingMatched(query: string) {
    forall t: TableNo | t >= 2 :: !Wanted(query, t)
  }

  /** Of the tables 2 to `n + 1`, those whose flag is set, in table order. */
  function MatchedUpTo(flags: seq<bool>, n: int): seq<TableNo>
    requires |flags| == 4 && 0 <= n <= 4
  {
    if n == 0 then []
    else MatchedUpTo(flags, n - 1) + (if flags[n - 1] then [(n + 1) as TableNo] else [])
  }

  /** Customers first, then the flagged tables; every table when none is flagged. */
  function Choose(flags: seq<bool>): seq<TableNo>
    requires |flags| == 4
  {
    var matched := MatchedUpTo(flags, 4);
    if matched == [] then AllTables else [1] + matched
  }

  function SelectedTables(query: string): seq<TableNo> {
    Choose(Matches(query))
  }

  function Lines(tables: seq<TableNo>): (lines: seq<string>)
    ensures |lines| == |tables|
  {
    seq(|tables|, i requires 0 <= i < |tables| => TableLine(tables[i]))
  }

  /** The schema text the prompt receives for `query`. */
  function RelevantSchema(query: string): string {
    Join(Lines(SelectedTables(query)), "\n")
  }

  /** The function of lines 113-144: start from the customers line, append the
      line of every table whose keywords occur, fall back to all five lines when
      nothing was appended, and join the lines with newlines. */
  method GetRelevantSchema(query: string) returns (schema: string)
    ensures schema == RelevantSchema(query)
  {
    var queryLower := Lower(query);
    ghost var flags := Matches(query);
    var parts := [CustomersLine];
    assert parts == Lines(Listed(flags, 0));
    if ContainsAny(queryLower, AddressWords) {
      parts := parts + [AddressesLine];
    }
    ListedStep(flags, 1);
    assert parts == Lines(Listed(flags, 1));
    if ContainsAny(queryLower, CreditWords) {
      parts := parts + [CreditScoresLine];
    }
    ListedStep(flags, 2);
    assert parts == Lines(Listed(flags, 2));
    if ContainsAny(queryLower, TransactionWords) {
      parts := parts + [TransactionsLine];
    }
    ListedStep(flags, 3);
    assert parts == Lines(Listed(flags, 3));
    if ContainsAny(queryLower, LoanWords) {
      parts := parts + [LoansLine];
    }
    ListedStep(flags, 4);
    assert parts == Lines(Listed(flags, 4));
    if |parts| <= 1 {
      assert MatchedUpTo(flags, 4) == [];
      parts := AllLines;
      assert parts == Lines(AllTables);
    } else {
      assert Choose(flags) == Listed(flags, 4);
    }
    schema := Join(parts, "\n");
  }

  /** The tables listed once the first `n` keyword tests have run. */
  function Listed(flags: seq<bool>, n: int): seq<TableNo>
    requires |flags| == 4 && 0 <= n <= 4
  {
    [1] + MatchedUpTo(flags, n)
  }

  /** The `n`-th test appends the line of table `n + 1` exactly when its flag is set. */
  lemma ListedStep(flags: seq<bool>, n: int)
    requires |flags| == 4 && 1 <= n <= 4
    ensures Lines(Listed(flags, n)) ==
      Lines(Listed(flags, n - 1)) + (if flags[n - 1] then [TableLine(n + 1)] else [])
  {
    var before := Listed(flags, n - 1);
    if flags[n - 1] {
      assert Listed(flags, n) == before + [(n + 1) as TableNo];
    } else {
      assert Listed(flags, n) == before;
    }
  }

  lemma {:induction false} MatchedUpToMembers(flags: seq<bool>, n: int, u: TableNo)
    requires |flags| == 4 && 0 <= n <= 4
    ensures u in MatchedUpTo(flags, n) <==> 2 <= u <= n + 1 && flags[u - 2]
  {
    if n > 0 {
      MatchedUpToMembers(flags, n - 1, u);
    }
  }

  lemma {:induction false} MatchedUpToAscending(flags: seq<bool>, n: int)
    requires |flags| == 4 && 0 <= n <= 4
    ensures |MatchedUpTo(flags, n)| <= n
    ensures forall i | 0 <= i < |MatchedUpTo(flags, n)| :: 2 <= MatchedUpTo(flags, n)[i] <= n + 1
    ensures forall i, j | 0 <= i < j < |MatchedUpTo(flags, n)| :: MatchedUpTo(flags, n)[i] < MatchedUpTo(flags, n)[j]
  {
    if n > 0 {
      MatchedUpToAscending(flags, n - 1);
      var init := MatchedUpTo(flags, n - 1);
      if flags[n - 1] {
        var m := init + [(n + 1) as TableNo];
        assert MatchedUpTo(flags, n) == m;
        forall i | 0 <= i < |m|
          ensures 2 <= m[i] <= n + 1
        {
          if i < |init| {
            assert m[i] == init[i];
          }
        }
        forall i, j | 0 <= i < j < |m|
          ensures m[i] < m[j]
        {
          assert m[i] == init[i];
          if j < |init| {
            assert m[j] == init[j];
          }
        }
      } else {
        assert MatchedUpTo(flags, n) == init;
      }
    }
  }

  lemma ChooseMembers(flags: seq<bool>, u: TableNo)
    requires |flags| == 4
    ensures u in Choose(flags) <==> u == 1 || flags[u - 2] || forall i | 0 <= i < 4 :: !flags[i]
  {
    MatchedUpToMembers(flags, 4, u);
    if MatchedUpTo(flags, 4) != [] {
      var v := MatchedUpTo(flags, 4)[0];
      MatchedUpToMembers(flags, 4, v);
    } else {
      forall i | 0 <= i < 4
        ensures !flags[i]
      {
        MatchedUpToMembers(flags, 4, i + 2);
      }
    }
  }

  lemma ChooseShape(flags: seq<bool>)
    requires |flags| == 4
    ensures 2 <= |Choose(flags)| <= 5 && Choose(flags)[0] == 1
    ensures forall i, j | 0 <= i < j < |Choose(flags)| :: Choose(flags)[i] < Choose(flags)[j]
  {
    var m := MatchedUpTo(flags, 4);
    if m != [] {
      MatchedUpToAscending(flags, 4);
      AscendingCons(1, m);
      assert Choose(flags) == [1] + m;
    } else {
      AllTablesAscending();
      assert Choose(flags) == AllTables;
    }
  }

  lemma AllTablesAscending()
    ensures forall i, j | 0 <= i < j < |AllTables| :: AllTables[i] < AllTables[j]
  {
    assert forall i | 0 <= i < 5 :: AllTables[i] == i + 1;
  }

  /** Putting a smaller number in front keeps a sequence ascending. */
  lemma AscendingCons(x: TableNo, m: seq<TableNo>)
    requires forall i | 0 <= i < |m| :: x < m[i]
    requires forall i, j | 0 <= i < j < |m| :: m[i] < m[j]
    ensures forall i, j | 0 <= i < j < |[x] + m| :: ([x] + m)[i] < ([x] + m)[j]
  {
    var s := [x] + m;
    forall i, j | 0 <= i < j < |s|
      ensures s[i] < s[j]
    {
      assert s[j] == m[j - 1];
      if i > 0 {
        assert s[i] == m[i - 1];
      }
    }
  }

  lemma ChooseAllIff(flags: seq<bool>)
    requires |flags| == 4
    ensures Choose(flags) == AllTables
      <==> (forall i | 0 <= i < 4 :: !flags[i]) || (forall i | 0 <= i < 4 :: flags[i])
  {
    var none := forall i | 0 <= i < 4 :: !flags[i];
    if forall i | 0 <= i < 4 :: flags[i] {
      assert flags[0] && flags[1] && flags[2] && flags[3];
      assert MatchedUpTo(flags, 1) == [2];
      assert MatchedUpTo(flags, 2) == [2, 3];
      assert MatchedUpTo(flags, 3) == [2, 3, 4];
      assert MatchedUpTo(flags, 4) == [2, 3, 4, 5];
      assert Choose(flags) == AllTables;
    } else if none {
      assert !flags[0] && !flags[1] && !flags[2] && !flags[3];
      assert MatchedUpTo(flags, 1) == [];
      assert MatchedUpTo(flags, 2) == [];
      assert MatchedUpTo(flags, 3) == [];
      assert MatchedUpTo(flags, 4) == [];
    }
  }

  /** Table `u` is described exactly when it is the customers table, one of its
      keywords occurs, or no keyword of any table occurs. */
  lemma SelectedTablesMembers(query: string, u: TableNo)
    ensures u in SelectedTables(query) <==> u == 1 || Wanted(query, u) || NothingMatched(query)
  {
    var flags := Matches(query);
    ChooseMembers(flags, u);
    if forall i | 0 <= i < 4 :: !flags[i] {
      assert NothingMatched(query);
    } else {
      var i :| 0 <= i < 4 && flags[i];
      assert Wanted(query, i + 2);
    }
  }

  /** The customers line comes first; two to five lines follow in table order,
      without repetition. */
  lemma SelectedTablesShape(query: string)
    ensures 2 <= |SelectedTables(query)| <= 5 && SelectedTables(query)[0] == 1
    ensures forall i, j | 0 <= i < j < |SelectedTables(query)| :: SelectedTables(query)[i] < SelectedTables(query)[j]
  {
    ChooseShape(Matches(query));
  }

  /** All five lines are sent exactly when no keyword occurs or keywords of
      every table occur. */
  lemma AllTablesIff(query: string)
    ensures SelectedTables(query) == AllTables
      <==> NothingMatched(query) || forall t: TableNo | t >= 2 :: Wanted(query, t)
  {
    var flags := Matches(query);
    ChooseAllIff(flags);
    assert NothingMatched(query) <==> forall i | 0 <= i < 4 :: !flags[i] by {
      if NothingMatched(query) {
        forall i | 0 <= i < 4
          ensures !flags[i]
        {
          assert !Wanted(query, i + 2);
        }
      }
    }
    assert (forall t: TableNo | t >= 2 :: Wanted(query, t)) <==> forall i | 0 <= i < 4 :: flags[i] by {
      if forall t: TableNo | t >= 2 :: Wanted(query, t) {
        forall i | 0 <= i < 4
          ensures flags[i]
        {
          assert Wanted(query, i + 2);
        }
      }
    }
  }

  /** Every keyword has at least three letters, so a question shorter than
      that, the empty one included, gets the whole schema. */
  lemma ShortQueryGetsAllTables(query: string)
    requires |query| < 3
    ensures SelectedTables(query) == AllTables
  {
    var flags := Matches(query);
    var q := Lower(query);
    KeywordsAreLong();
    ShortContainsNone(q, AddressWords);
    ShortContainsNone(q, CreditWords);
    ShortContainsNone(q, TransactionWords);
    ShortContainsNone(q, LoanWords);
    assert !flags[0] && !flags[1] && !flags[2] && !flags[3];
    ChooseAllIff(flags);
  }

  lemma KeywordsAreLong()
    ensures forall j | 0 <= j < |AddressWords| :: |AddressWords[j]| >= 3
    ensures forall j | 0 <= j < |CreditWords| :: |CreditWords[j]| >= 3
    ensures forall j | 0 <= j < |TransactionWords| :: |TransactionWords[j]| >= 3
    ensures forall j | 0 <= j < |LoanWords| :: |LoanWords[j]| >= 3
  {
  }

  /** `credit` belongs to two groups, so it brings in both credit scores and
      transactions. */
  lemma CreditSelectsScoresAndTransactions(query: string)
    requires Contains(Lower(query), "credit")
    ensures 3 in SelectedTables(query) && 4 in SelectedTables(query)
  {
    assert CreditWords[0] == "credit" && TransactionWords[4] == "credit";
    SelectedTablesMembers(query, 3);
    SelectedTablesMembers(query, 4);
  }

  /** `payment` belongs to two groups, so it brings in both transactions and loans. */
  lemma PaymentSelectsTransactionsAndLoans(query: string)
    requires Contains(Lower(query), "payment")
    ensures 4 in SelectedTables(query) && 5 in SelectedTables(query)
  {
    assert TransactionWords[1] == "payment" && LoanWords[4] == "payment";
    SelectedTablesMembers(query, 4);
    SelectedTablesMembers(query, 5);
  }

  /** Keywords match inside words: `premium` contains `emi`, so it brings in loans. */
  lemma PremiumSelectsLoans(query: string)
    requires Contains(Lower(query), "premium")
    ensures 5 in SelectedTables(query)
  {
    assert "premium" == "pr" + "emi" + "um";
    ContainsBetween("pr", "emi", "um");
    ContainsTrans(Lower(query), "premium", "emi");
    assert LoanWords[3] == "emi";
    SelectedTablesMembers(query, 5);
  }

  /** The schema text starts with the customers line. */
  lemma SchemaStartsWithCustomers(query: string)
    ensures StartsWith(RelevantSchema(query), CustomersLine)
  {
    SelectedTablesShape(query);
    JoinHead(Lines(SelectedTables(query)), "\n");
  }

  /** No description line contains a newline, so splitting the schema text at
      newlines gives back exactly the selected lines. */
  lemma SchemaSplitsIntoLines(query: string)
    ensures SplitOn(RelevantSchema(query), '\n') == Lines(SelectedTables(query))
  {
    var lines := Lines(SelectedTables(query));
    forall t: TableNo
      ensures '\n' !in TableLine(t)
    {
      NoNewlineInLine(t);
    }
    SelectedTablesShape(query);
    SplitOnJoin(lines, '\n');
  }

  /** No table line contains a line break, so the join of line 144 can be undone. */
  lemma NoNewlineInLine(t: TableNo)
    ensures '\n' !in TableLine(t)
  {
    if t == 1 {
      NoNewlineInCustomersLine();
    } else if t == 2 {
      NoNewlineInAddressesLine();
    } else if t == 3 {
      NoNewlineInCreditScoresLine();
    } else if t == 4 {
      NoNewlineInTransactionsLine();
    } else {
      NoNewlineInLoansLine();
    }
  }

  // One lemma per table line: the verifier settles `'\n' !in` over a long
  // constant only when it sees that constant alone.
  lemma NoNewlineInCustomersLine() ensures '\n' !in CustomersLine { }
  lemma NoNewlineInAddressesLine() ensures '\n' !in AddressesLine { }
  lemma NoNewlineInCreditScoresLine() ensures '\n' !in CreditScoresLine { }
  lemma NoNewlineInTransactionsLine() ensures '\n' !in TransactionsLine { }
  lemma NoNewlineInLoansLine() ensures '\n' !in LoansLine { }
}
