/** `determine_query_type` and `is_safe_query` (app.py lines 234-252), and how
    they relate to the gate of `get_sql_from_gemini`. */
module Classify {
  import opened Text
  import opened SqlGate

  datatype QueryType = Select | Insert | Update | Delete | Unknown

  /** The string `determine_query_type` returns for each kind. */
  function TypeName(t: QueryType): string {
    match t
    case Select => "select"
    case Insert => "insert"
    case Update => "update"
    case Delete => "delete"
    case Unknown => "unknown"
  }

  /** The statement kinds tried, in the order they are tried. */
  const Kinds: seq<QueryType> := [Select, Insert, Update, Delete]

  /** The statement as `determine_query_type` inspects it: stripped, then lower-cased. */
  function Normalized(sql: string): string {
    Lower(Strip(sql))
  }

  /** Lines 234-245: the first kind, in the order select, insert, update, delete,
      whose name starts the normalized statement; `unknown` when none does. */
  function DetermineQueryType(sql: string): (t: QueryType)
    ensures t != Unknown ==> t in Kinds && StartsWith(Normalized(sql), TypeName(t))
    ensures t == Unknown <==> forall k | k in Kinds :: !StartsWith(Normalized(sql), TypeName(k))
  {
    var s := Normalized(sql);
    if StartsWith(s, "select") then Select
    else if StartsWith(s, "insert") then Insert
    else if StartsWith(s, "update") then Update
    else if StartsWith(s, "delete") then Delete
    else Unknown
  }

  /** The four names begin with four different letters, so at most one of them
      starts any text. */
  lemma KindsExclusive(s: string, a: QueryType, b: QueryType)
    requires a in Kinds && b in Kinds
    requires StartsWith(s, TypeName(a)) && StartsWith(s, TypeName(b))
    ensures a == b
  {
    assert s[0] == TypeName(a)[0] && s[0] == TypeName(b)[0];
  }

  /** Hence the order of the tests does not matter: the kind found is the only
      one whose name starts the normalized statement. */
  lemma DetermineQueryTypeUnique(sql: string, k: QueryType)
    requires k in Kinds && StartsWith(Normalized(sql), TypeName(k))
    ensures DetermineQueryType(sql) == k
  {
    var t := DetermineQueryType(sql);
    if t != Unknown {
      KindsExclusive(Normalized(sql), t, k);
    }
  }

  /** The words `is_safe_query` refuses; `grant` and `revoke` are not banned by
      the gate, while `insert`, `update` and `delete` are banned only there. */
  const UnsafeKeywords: seq<string> := ["drop", "truncate", "alter", "grant", "revoke"]

  /** Lines 247-252: safe exactly when no unsafe keyword occurs anywhere in the
      lower-cased statement. */
  function IsSafeQuery(sql: string): bool {
    !ContainsAny(Lower(sql), UnsafeKeywords)
  }

  /** Three of the five unsafe keywords are banned words too, so on a statement
      that passes the gate's banned-word check `is_safe_query` only adds the
      test for `grant` and `revoke`. */
  lemma SafeBeyondGate(sql: string)
    requires !HasBannedWord(sql)
    ensures IsSafeQuery(sql) <==> !Contains(Lower(sql), "grant") && !Contains(Lower(sql), "revoke")
  {
    var l := Lower(sql);
    assert UnsafeKeywords[3] == "grant" && UnsafeKeywords[4] == "revoke";
    if !Contains(l, "grant") && !Contains(l, "revoke") {
      forall j | 0 <= j < |UnsafeKeywords|
        ensures !Contains(l, UnsafeKeywords[j])
      {
        if j < 3 {
          assert UnsafeKeywords[j] == BannedWords[j + 3];
        }
      }
    }
  }

  /** Whatever the gate accepts is classified as a `select` statement. */
  lemma AcceptedIsSelect(reply: ModelReply)
    requires Gate(reply).Ok?
    ensures DetermineQueryType(Gate(reply).value) == Select
  {
    var text := reply.text;
    GateRejects(reply);
    GateAccepts(text);
    var v := Gate(reply).value;
    assert StartsWith(Lower(v), "select");
    assert v != [] && !IsSpace(v[0]) && !IsSpace(v[|v| - 1]);
    StripUnchanged(v);
  }

  /** `is_safe_query` is never called, and the gate does not look for `grant`:
      `select grant` passes the gate unchanged although `is_safe_query` calls it
      unsafe. */
  lemma GrantPassesGateButIsUnsafe(s: string)
    requires s == "select grant"
    ensures Gate(Reply(s)) == Ok(s) && !IsSafeQuery(s)
  {
    assert s[0] == 's' && s[|s| - 1] == 't';
    GrantLower(s);
    GrantNotBanned(s);
    assert StartsWith(s, "select");
    GrantShape(s);
    PassesUnchanged(s);
    GrantIsUnsafe(s);
  }

  /** `is_safe_query` would have caught the statement smuggled past the gate
      with a backtick. */
  lemma SmuggledDropIsUnsafe(raw: string, out: string)
    requires raw == "select dr`op" && out == "select drop"
    ensures Gate(Reply(raw)) == Ok(out) && !IsSafeQuery(out)
  {
    BacktickSmugglesBannedWord(raw, out);
    DropIsUnsafe(out);
  }

  // ---------------------------------------------------------------------
  // Facts about the example strings
  //
  // The verifier cannot settle a question about a string literal in one
  // step: a membership test or an equality over a literal of a dozen or more
  // characters can run out of resource. Each fact about an example is therefore
  // proved on its own, from the characters of the literal, and the lemmas
  // above combine them.

  lemma GrantIsUnsafe(s: string)
    requires s == "select grant" && Lower(s) == s
    ensures !IsSafeQuery(s)
  {
    assert s == "select " + "grant" + "";
    ContainsBetween("select ", "grant", "");
    assert UnsafeKeywords[3] == "grant";
  }

  lemma GrantLower(s: string)
    requires s == "select grant"
    ensures Lower(s) == s
  {
    assert forall i | 0 <= i < |s| :: !IsUpper(s[i]);
    LowerUnchanged(s);
  }

  lemma GrantNotBanned(s: string)
    requires s == "select grant"
    ensures !ContainsAny(s, BannedWords)
  {
    assert !Contains(s, "insert") by { assert 'i' !in s; NotContainsByChar(s, "insert", 0); }
    assert !Contains(s, "update") by { assert 'u' !in s; NotContainsByChar(s, "update", 0); }
    assert !Contains(s, "delete") by {
      assert forall i | 0 <= i < |s| - 1 :: !(s[i] == 'd' && s[i + 1] == 'e');
      NotContainsByPair(s, "delete", 0);
    }
    assert !Contains(s, "drop") by { assert 'd' !in s; NotContainsByChar(s, "drop", 0); }
    assert !Contains(s, "truncate") by { assert 'u' !in s; NotContainsByChar(s, "truncate", 2); }
    assert !Contains(s, "alter") by {
      assert forall i | 0 <= i < |s| - 1 :: !(s[i] == 'a' && s[i + 1] == 'l');
      NotContainsByPair(s, "alter", 0);
    }
  }

  lemma GrantShape(s: string)
    requires s == "select grant"
    ensures CleanShape(s)
  {
    forall i | 0 <= i < |s| && IsSpace(s[i])
      ensures s[i] == ' ' && 0 < i < |s| - 1 && !IsSpace(s[i + 1])
    {
      assert i == 6;
    }
    forall i | 0 <= i < |s| ensures s[i] !in "`\"\n" {
    }
  }

  lemma DropIsUnsafe(out: string)
    requires out == "select drop"
    ensures !IsSafeQuery(out)
  {
    assert out == "select " + "drop" + "";
    assert forall i | 0 <= i < |out| :: !IsUpper(out[i]);
    LowerUnchanged(out);
    ContainsBetween("select ", "drop", "");
    assert UnsafeKeywords[0] == "drop";
  }
}
