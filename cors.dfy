/** The server's CORS origin policy: the allow-list read from
    FRONTEND_BASE_URL and the predicate applied to each request's origin. */
module Cors {
  import opened Wrappers
  import opened Strings

  /** The trimmed, non-empty entries, in order. */
  function NonEmptyTrimmed(parts: seq<string>): (r: seq<string>)
    ensures forall x :: x in r <==> x != "" && exists p :: p in parts && Trim(p) == x
  {
    if parts == [] then []
    else
      var rest := NonEmptyTrimmed(parts[1..]);
      assert forall p :: p in parts[1..] ==> p in parts;
      assert forall p :: p in parts ==> p == parts[0] || p in parts[1..];
      if Trim(parts[0]) == "" then rest else [Trim(parts[0])] + rest
  }

  lemma {:induction false} NonEmptyTrimmedConcat(a: seq<string>, b: seq<string>)
    ensures NonEmptyTrimmed(a + b) == NonEmptyTrimmed(a) + NonEmptyTrimmed(b)
  {
    if a == [] {
      assert a + b == b;
    } else {
      assert (a + b)[0] == a[0];
      assert (a + b)[1..] == a[1..] + b;
      NonEmptyTrimmedConcat(a[1..], b);
    }
  }

  /** `allowedOrigins`: FRONTEND_BASE_URL (empty when unset) split on ",",
      every piece trimmed, empty pieces dropped. */
  function AllowedOrigins(frontendBaseUrl: Option<string>): (r: seq<string>)
    ensures forall o :: o in r ==> o != [] && !IsWhitespace(o[0]) && !IsWhitespace(o[|o| - 1])
  {
    var raw := if frontendBaseUrl.Some? then frontendBaseUrl.value else "";
    NonEmptyTrimmed(Split(raw, ','))
  }

  /** An unset or blank variable allows no listed origin; an entry is
      listed exactly when it is some comma-separated piece, trimmed. */
  lemma AllowedOriginsEntries(frontendBaseUrl: Option<string>, o: string)
    ensures frontendBaseUrl.None? ==> AllowedOrigins(frontendBaseUrl) == []
    ensures o in AllowedOrigins(frontendBaseUrl) <==>
      o != "" && exists p :: p in Split(if frontendBaseUrl.Some? then frontendBaseUrl.value else "", ',') && Trim(p) == o
  {
    if frontendBaseUrl.None? {
      assert Split("", ',') == [""];
      assert AllWhitespace("");
      assert Trim("") == "";
      assert [""][1..] == [];
      assert NonEmptyTrimmed([""]) == [];
    }
  }

  /** Adding entries after a comma keeps the old entries, in front. */
  lemma AppendingEntries(value: string, more: string)
    ensures AllowedOrigins(Some(value + "," + more)) == AllowedOrigins(Some(value)) + AllowedOrigins(Some(more))
  {
    assert value + "," + more == value + [','] + more;
    SplitAround(value, more, ',');
    NonEmptyTrimmedConcat(Split(value, ','), Split(more, ','));
  }

  datatype Decision = Allow | Reject(message: string)

  const LocalhostPrefix: string := "http://localhost:"
  const LoopbackPrefix: string := "http://127.0.0.1:"

  /** The `origin` callback: no origin, a local development origin, or a
      listed origin is allowed; anything else is rejected with an error that
      names it. */
  function CheckOrigin(allowed: seq<string>, origin: Option<string>): (d: Decision)
    ensures d == Allow <==>
      || origin.None? || origin.value == ""
      || StartsWith(origin.value, LocalhostPrefix) || StartsWith(origin.value, LoopbackPrefix)
      || origin.value in allowed
    ensures d.Reject? ==> origin.Some? && d.message == "CORS blocked for origin: " + origin.value
  {
    if origin.None? || origin.value == "" then Allow
    else if StartsWith(origin.value, LocalhostPrefix) || StartsWith(origin.value, LoopbackPrefix) then Allow
    else if origin.value in allowed then Allow
    else Reject("CORS blocked for origin: " + origin.value)
  }

  /** Adding entries to FRONTEND_BASE_URL never turns an allowed origin
      into a rejected one. */
  lemma MoreEntriesAllowMore(value: string, more: string, origin: Option<string>)
    requires CheckOrigin(AllowedOrigins(Some(value)), origin) == Allow
    ensures CheckOrigin(AllowedOrigins(Some(value + "," + more)), origin) == Allow
    ensures CheckOrigin(AllowedOrigins(Some(more + "," + value)), origin) == Allow
  {
    AppendingEntries(value, more);
    AppendingEntries(more, value);
  }

  /** The local-development rule needs plain http and an explicit port:
      neither https://localhost:5173 nor http://localhost is covered by it. */
  lemma LocalRuleIsNarrow(allowed: seq<string>)
    ensures CheckOrigin(allowed, Some("http://localhost:5173")) == Allow
    ensures CheckOrigin(allowed, Some("https://localhost:5173")) == Allow <==> "https://localhost:5173" in allowed
    ensures CheckOrigin(allowed, Some("http://localhost")) == Allow <==> "http://localhost" in allowed
  {
    assert "http://localhost:5173"[..|LocalhostPrefix|] == LocalhostPrefix;
    assert "https://localhost:5173"[..|LocalhostPrefix|] != LocalhostPrefix by {
      assert "https://localhost:5173"[4] != LocalhostPrefix[4];
    }
    assert "https://localhost:5173"[..|LoopbackPrefix|] != LoopbackPrefix by {
      assert "https://localhost:5173"[7] != LoopbackPrefix[7];
    }
  }
}
