/** The safety gate and clean-up that `get_sql_from_gemini` applies to the
    language model's reply (app.py lines 206-232). The model call itself is not
    part of this model: its outcome arrives as a `ModelReply`. */
module SqlGate {
  import opened Text

  /** What `model.generate_content(prompt)` produced: the reply's text, or the
      message of the exception the call raised. */
  datatype ModelReply = Reply(text: string) | ServiceError(message: string)

  /** A value, or the message of the `ValueError` raised instead. */
  datatype Result<T> = Ok(value: T) | Err(message: string)

  /** The words whose presence anywhere in the reply rejects it. */
  const BannedWords: seq<string> := ["insert", "update", "delete", "drop", "truncate", "alter"]

  /** Every error leaves `get_sql_from_gemini` with this prefix. */
  const ErrorPrefix := "Error generating SQL query: "
  const BannedWordMessage := "Only SELECT statements are allowed"
  const NotSelectMessage := "Query must start with SELECT"

  /** The check of lines 209-211: a banned word occurs in the lower-cased text. */
  predicate HasBannedWord(s: string) {
    ContainsAny(Lower(s), BannedWords)
  }

  /** The check of line 213: the lower-cased text starts with `select`. */
  predicate StartsWithSelect(s: string) {
    StartsWith(Lower(s), "select")
  }

  /** The clean-up of lines 217-220: drop backticks, turn double quotes into
      single quotes and line feeds into spaces, then `' '.join(s.split())`. */
  function CleanUp(s: string): string {
    CollapseSpaces(Replace(Replace(RemoveChar(s, '`'), '"', '\''), '\n', ' '))
  }

  /** Lines 223-224: a leading `sql`, in any case, is cut off and the rest stripped. */
  function DropSqlPrefix(s: string): string {
    if StartsWith(Lower(s), "sql") then Strip(s[3..]) else s
  }

  /** What a statement handed to the database looks like after clean-up: no
      backtick, no double quote, no line break, and only single spaces between
      non-blank characters. */
  predicate CleanShape(s: string) {
    '`' !in s && '"' !in s && '\n' !in s && WellSpaced(s)
  }

  /** `get_sql_from_gemini` after the model call, as a function of the reply:
      the checks run on the stripped reply, the clean-up only afterwards. */
  function Gate(reply: ModelReply): Result<string> {
    match reply
    case ServiceError(m) => Err(ErrorPrefix + m)
    case Reply(text) =>
      var sql := Strip(text);
      if HasBannedWord(sql) then Err(ErrorPrefix + BannedWordMessage)
      else if !StartsWithSelect(sql) then Err(ErrorPrefix + NotSelectMessage)
      else Ok(DropSqlPrefix(CleanUp(sql)))
  }

  /** The gate step by step, as the source reassigns `sql_query`. */
  method GenerateSql(reply: ModelReply) returns (r: Result<string>)
    ensures r == Gate(reply)
    ensures r.Err? ==> StartsWith(r.message, ErrorPrefix)
    ensures reply.ServiceError? ==> r == Err(ErrorPrefix + reply.message)
    ensures reply.Reply? ==>
      (r.Ok? <==> !HasBannedWord(Strip(reply.text)) && StartsWithSelect(Strip(reply.text)))
    ensures reply.Reply? && HasBannedWord(Strip(reply.text)) ==>
      r == Err(ErrorPrefix + BannedWordMessage)
    ensures reply.Reply? && !HasBannedWord(Strip(reply.text)) && !StartsWithSelect(Strip(reply.text)) ==>
      r == Err(ErrorPrefix + NotSelectMessage)
    ensures r.Ok? ==> r.value == CleanUp(Strip(reply.text))
    ensures r.Ok? ==> StartsWithSelect(r.value) && CleanShape(r.value)
  {
    match reply {
      case ServiceError(m) =>
        r := Err(ErrorPrefix + m);
      case Reply(text) =>
        var sql := Strip(text);
        var sqlLower := Lower(sql);
        if ContainsAny(sqlLower, BannedWords) {
          r := Err(ErrorPrefix + BannedWordMessage);
          return;
        }
        if !StartsWith(sqlLower, "select") {
          r := Err(ErrorPrefix + NotSelectMessage);
          return;
        }
        ghost var stripped := sql;
        sql := RemoveChar(sql, '`');
        sql := Replace(sql, '"', '\'');
        sql := Replace(sql, '\n', ' ');
        sql := CollapseSpaces(sql);
        assert sql == CleanUp(stripped);
        CleanUpKeepsSelect(stripped);
        CleanUpShape(stripped);
        SqlPrefixUnreachable(sql);
        sql := DropSqlPrefix(sql);
        r := Ok(sql);
    }
    assert StartsWith(ErrorPrefix + BannedWordMessage, ErrorPrefix);
    assert StartsWith(ErrorPrefix + NotSelectMessage, ErrorPrefix);
  }

  // ---------------------------------------------------------------------
  // Properties of the clean-up

  /** The clean-up always yields the clean shape. */
  lemma CleanUpShape(s: string)
    ensures CleanShape(CleanUp(s))
  {
    var x0 := RemoveChar(s, '`');
    var x1 := Replace(x0, '"', '\'');
    var x := Replace(x1, '\n', ' ');
    ReplaceExcludes(x0, '"', '\'', '`');
    ReplaceExcludes(x1, '\n', ' ', '`');
    ReplaceExcludes(x1, '\n', ' ', '"');
    WordsExclude(x, '`');
    WordsExclude(x, '"');
    JoinExclude(Words(x), " ", '`');
    JoinExclude(Words(x), " ", '"');
    JoinWordsWellSpaced(Words(x));
    var r := CleanUp(s);
    forall i | 0 <= i < |r|
      ensures r[i] != '\n'
    {
      if IsSpace(r[i]) {
        assert r[i] == ' ';
      }
    }
  }

  /** The clean-up leaves a text unchanged exactly when it already has the clean shape. */
  lemma CleanUpFixedIff(s: string)
    ensures CleanUp(s) == s <==> CleanShape(s)
  {
    CleanUpShape(s);
    if CleanShape(s) {
      RemoveCharAbsent(s, '`');
      ReplaceAbsent(s, '"', '\'');
      ReplaceAbsent(s, '\n', ' ');
      CollapseFixedIff(s);
    }
  }

  /** The clean-up is idempotent: cleaning a cleaned statement changes nothing. */
  lemma CleanUpIdempotent(s: string)
    ensures CleanUp(CleanUp(s)) == CleanUp(s)
  {
    var c := CleanUp(s);
    CleanUpShape(s);
    RemoveCharAbsent(c, '`');
    ReplaceAbsent(c, '"', '\'');
    ReplaceAbsent(c, '\n', ' ');
    CollapseFixedIff(c);
  }

  /** The first six characters of a text that passed the `select` check are
      letters, so the clean-up keeps them in place. */
  lemma CleanUpKeepsSelect(s: string)
    requires StartsWithSelect(s)
    ensures StartsWithSelect(CleanUp(s))
  {
    var p := s[..6];
    SelectIsLetters(s);
    assert s == p + s[6..];
    RemoveCharAppend(p, s[6..], '`');
    RemoveCharAbsent(p, '`');
    var x0 := RemoveChar(s, '`');
    assert x0[..6] == p;
    var x := Replace(Replace(x0, '"', '\''), '\n', ' ');
    assert x[..6] == p;
    CollapseKeepsPrefix(x, 6);
    var r := CleanUp(s);
    assert r[..6] == p;
    assert Lower(r)[..6] == Lower(p) == Lower(s)[..6];
  }

  /** Only a letter lower-cases to a letter. */
  lemma LowerLetter(c: char)
    requires 'a' <= LowerChar(c) <= 'z'
    ensures 'a' <= c <= 'z' || 'A' <= c <= 'Z'
  {
  }

  /** A text that passes the `select` check starts with six letters. */
  lemma SelectIsLetters(s: string)
    requires StartsWithSelect(s)
    ensures |s| >= 6
    ensures forall i | 0 <= i < 6 :: 'a' <= s[i] <= 'z' || 'A' <= s[i] <= 'Z'
  {
    forall i | 0 <= i < 6
      ensures 'a' <= s[i] <= 'z' || 'A' <= s[i] <= 'Z'
    {
      assert Lower(s)[i] == LowerChar(s[i]);
      assert Lower(s)[..6][i] == "select"[i];
      LowerLetter(s[i]);
    }
  }

  /** The `sql`-prefix branch of lines 223-224 never fires on a statement that
      passed the `select` check: such text starts with `se`, not `sq`. */
  lemma SqlPrefixUnreachable(s: string)
    requires StartsWithSelect(s)
    ensures !StartsWith(Lower(s), "sql")
    ensures DropSqlPrefix(s) == s
  {
    assert Lower(s)[1] == "select"[1] == 'e';
  }

  // ---------------------------------------------------------------------
  // Properties of the whole gate

  /** A reply whose stripped text passes both checks is accepted; the
      statement returned is the cleaned-up stripped text, starts with `select`
      and has the clean shape, so the `sql` strip plays no part. */
  lemma GateAccepts(text: string)
    requires !HasBannedWord(Strip(text)) && StartsWithSelect(Strip(text))
    ensures Gate(Reply(text)) == Ok(CleanUp(Strip(text)))
    ensures StartsWithSelect(CleanUp(Strip(text))) && CleanShape(CleanUp(Strip(text)))
  {
    var t := Strip(text);
    CleanUpKeepsSelect(t);
    CleanUpShape(t);
    SqlPrefixUnreachable(CleanUp(t));
  }

  /** Every rejection names its reason behind the common prefix: the banned-word
      check wins over the `select` check, and a failed model call passes its
      message through. */
  lemma GateRejects(reply: ModelReply)
    ensures Gate(reply).Err? <==>
      reply.ServiceError? || HasBannedWord(Strip(reply.text)) || !StartsWithSelect(Strip(reply.text))
    ensures Gate(reply).Err? ==> StartsWith(Gate(reply).message, ErrorPrefix)
  {
    assert StartsWith(ErrorPrefix + BannedWordMessage, ErrorPrefix);
    assert StartsWith(ErrorPrefix + NotSelectMessage, ErrorPrefix);
    if reply.ServiceError? {
      assert StartsWith(ErrorPrefix + reply.message, ErrorPrefix);
    }
  }

  /** A reply free of banned words that does not start with `select` is
      rejected for that reason. */
  lemma GateRejectsNonSelect(text: string)
    requires !HasBannedWord(Strip(text)) && !StartsWithSelect(Strip(text))
    ensures Gate(Reply(text)) == Err(ErrorPrefix + NotSelectMessage)
  {
  }

  /** A reply that names a banned word anywhere, in any case, is rejected even
      when it starts with `select`. */
  lemma GateRejectsBannedWord(text: string, j: nat)
    requires j < |BannedWords| && Contains(Lower(Strip(text)), BannedWords[j])
    ensures Gate(Reply(text)) == Err(ErrorPrefix + BannedWordMessage)
  {
  }

  // ---------------------------------------------------------------------
  // Concrete consequences of checking before cleaning up

  /** A harmless column whose name contains a banned word is enough to reject a
      query: every reply that mentions `credit_scores.last_updated` (the column
      of line 91), in any case, is refused because it contains `update`. */
  lemma LegitimateColumnRejected(text: string)
    requires Contains(Lower(Strip(text)), "last_updated")
    ensures Gate(Reply(text)) == Err(ErrorPrefix + BannedWordMessage)
  {
    assert "last_updated" == "last_" + "update" + "d";
    ContainsBetween("last_", "update", "d");
    ContainsTrans(Lower(Strip(text)), "last_updated", "update");
    assert BannedWords[1] == "update";
    GateRejectsBannedWord(text, 1);
  }

  /** A reply that has no surrounding whitespace, passes both checks and already
      has the clean shape reaches the database exactly as the model wrote it. */
  lemma PassesUnchanged(s: string)
    requires s != [] && !IsSpace(s[0]) && !IsSpace(s[|s| - 1])
    requires !HasBannedWord(s) && StartsWithSelect(s) && CleanShape(s)
    ensures Gate(Reply(s)) == Ok(s)
  {
    StripUnchanged(s);
    CleanUpFixedIff(s);
    GateAccepts(s);
  }

  /** A reply with a leading `sql` token is always refused, since the `select`
      check runs before the strip of lines 223-224 could remove the token. */
  lemma SqlPrefixedReplyRejected(text: string)
    requires StartsWith(Lower(Strip(text)), "sql")
    ensures Gate(Reply(text)).Err?
    ensures !HasBannedWord(Strip(text)) ==> Gate(Reply(text)) == Err(ErrorPrefix + NotSelectMessage)
  {
    var t := Strip(text);
    assert Lower(t)[1] == 'q' != "select"[1];
    assert !StartsWithSelect(t);
    if HasBannedWord(t) {
      GateRejects(Reply(text));
    } else {
      GateRejectsNonSelect(text);
    }
  }

  /** `SELECT * FROM customers` passes the gate and comes out unchanged. */
  lemma PlainSelectPasses(s: string)
    requires s == "SELECT * FROM customers"
    ensures Gate(Reply(s)) == Ok(s)
  {
    assert s[0] == 'S' && s[|s| - 1] == 's';
    PlainSelectLower(s);
    NoBannedWordInPlainSelect("select * from customers");
    PlainSelectShape(s);
    PassesUnchanged(s);
  }

  /** A lower-case text without the letters `i`, `p`, `d`, `n` and `a` contains
      none of the banned words. */
  lemma NoBannedWordWithoutLetters(l: string)
    requires 'i' !in l && 'p' !in l && 'd' !in l && 'n' !in l && 'a' !in l
    ensures !ContainsAny(l, BannedWords)
  {
    NotContainsByChar(l, "insert", 0);
    NotContainsByChar(l, "update", 1);
    NotContainsByChar(l, "delete", 0);
    NotContainsByChar(l, "drop", 0);
    NotContainsByChar(l, "truncate", 3);
    NotContainsByChar(l, "alter", 0);
  }

  /** Removing backticks after the check lets a banned word through: `dr`op`
      passes the check and reaches the database as `drop`. */
  lemma BacktickSmugglesBannedWord(raw: string, out: string)
    requires raw == "select dr`op" && out == "select drop"
    ensures Gate(Reply(raw)) == Ok(out) && HasBannedWord(out)
  {
    SmuggledChecks(raw);
    SmuggledCleanUp(raw, out);
    GateAccepts(raw);
    DropIsBanned(out);
  }

  lemma SmuggledBacktickRemoved(a: string, b: string, raw: string, out: string)
    requires '`' !in a && '`' !in b
    requires raw == a + "`" + b && out == a + b
    ensures RemoveChar(raw, '`') == out
  {
    var t := "`" + b;
    assert raw == a + t;
    RemoveCharAppend(a, t, '`');
    RemoveCharAbsent(a, '`');
    assert t[0] == '`' && t[1..] == b;
    assert RemoveChar(t, '`') == RemoveChar(b, '`');
    RemoveCharAbsent(b, '`');
  }

  // ---------------------------------------------------------------------
  // Facts about the example strings
  //
  // The verifier cannot settle a question about a string literal in one
  // step: a membership test or an equality over a literal of a dozen or more
  // characters can run out of resource. Each fact about an example is therefore
  // proved on its own, from the characters of the literal, and the lemmas
  // above combine them.

  lemma PlainSelectLower(s: string)
    requires s == "SELECT" + " * " + "FROM" + " customers"
    ensures Lower(s) == "select * from customers"
    ensures StartsWithSelect(s)
  {
    assert Lower(s) == "select" + " * " + "from" + " customers";
  }

  lemma PlainSelectShape(s: string)
    requires s == "SELECT * FROM customers"
    ensures CleanShape(s)
  {
    PlainSelectSpacing(s);
    PlainSelectChars(s);
  }

  lemma PlainSelectSpacing(s: string)
    requires s == "SELECT * FROM customers"
    ensures WellSpaced(s)
  {
    forall i | 0 <= i < |s| && IsSpace(s[i])
      ensures s[i] == ' ' && 0 < i < |s| - 1 && !IsSpace(s[i + 1])
    {
      assert i == 6 || i == 8 || i == 13;
    }
  }

  lemma PlainSelectChars(s: string)
    requires s == "SELECT * FROM customers"
    ensures '`' !in s && '"' !in s && '\n' !in s
  {
    forall i | 0 <= i < |s| ensures s[i] !in "`\"\n" {
    }
  }

  lemma NoBannedWordInPlainSelect(l: string)
    requires l == "select * from customers"
    ensures !ContainsAny(l, BannedWords)
  {
    forall i | 0 <= i < |l| ensures l[i] !in "ipdna" {
    }
    NoBannedWordWithoutLetters(l);
  }

  lemma SmuggledChecks(raw: string)
    requires raw == "select dr`op"
    ensures Strip(raw) == raw && !HasBannedWord(raw) && StartsWithSelect(raw)
  {
    assert raw[0] == 's' && raw[|raw| - 1] == 'p';
    StripUnchanged(raw);
    SmuggledLower(raw);
    NoBannedWordInSmuggled(raw);
  }

  lemma SmuggledLower(raw: string)
    requires raw == "select dr`op"
    ensures Lower(raw) == raw
  {
    assert forall i | 0 <= i < |raw| :: !IsUpper(raw[i]);
    LowerUnchanged(raw);
  }

  lemma NoBannedWordInSmuggled(l: string)
    requires l == "select dr`op"
    ensures !ContainsAny(l, BannedWords)
  {
    assert !Contains(l, "insert") by { assert 'i' !in l; NotContainsByChar(l, "insert", 0); }
    assert !Contains(l, "update") by { assert 'u' !in l; NotContainsByChar(l, "update", 0); }
    assert !Contains(l, "delete") by {
      assert forall i | 0 <= i < |l| - 1 :: !(l[i] == 'd' && l[i + 1] == 'e');
      NotContainsByPair(l, "delete", 0);
    }
    assert !Contains(l, "drop") by {
      assert forall i | 0 <= i < |l| - 1 :: !(l[i] == 'r' && l[i + 1] == 'o');
      NotContainsByPair(l, "drop", 1);
    }
    assert !Contains(l, "truncate") by { assert 'u' !in l; NotContainsByChar(l, "truncate", 2); }
    assert !Contains(l, "alter") by { assert 'a' !in l; NotContainsByChar(l, "alter", 0); }
  }

  lemma SmuggledCleanUp(raw: string, out: string)
    requires raw == "select dr`op" && out == "select drop"
    ensures CleanUp(raw) == out
  {
    SmuggledBacktickRemoved("select dr", "op", raw, out);
    SmuggledShape(out);
    CleanUpFixedIff(out);
    RemoveCharAbsent(out, '`');
  }

  lemma SmuggledShape(out: string)
    requires out == "select drop"
    ensures CleanShape(out)
  {
    forall i | 0 <= i < |out| && IsSpace(out[i])
      ensures out[i] == ' ' && 0 < i < |out| - 1 && !IsSpace(out[i + 1])
    {
      assert i == 6;
    }
    forall i | 0 <= i < |out| ensures out[i] !in "`\"\n" {
    }
  }

  lemma DropIsBanned(out: string)
    requires out == "select drop"
    ensures HasBannedWord(out)
  {
    assert out == "select " + "drop" + "";
    LowerUnchanged(out);
    ContainsBetween("select ", "drop", "");
    assert BannedWords[3] == "drop";
  }
}
