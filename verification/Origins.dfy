/** The CORS origin list of internal/router/router.go. */
module Origins {
  import opened Text

  /** The pieces that are not blank, trimmed, in their order. */
  function Kept(parts: seq<string>): seq<string> {
    if parts == [] then []
    else (if TrimSpace(parts[0]) != "" then [TrimSpace(parts[0])] else []) + Kept(parts[1..])
  }

  function OriginList(s: string): seq<string> {
    if s == "" then [] else Kept(Split(s))
  }

  lemma {:induction false} KeptSnoc(parts: seq<string>, last: string)
    ensures Kept(parts + [last]) == Kept(parts) + Kept([last])
  {
    var all := parts + [last];
    if parts == [] {
      assert all == [last];
    } else {
      assert all[1..] == parts[1..] + [last];
      KeptSnoc(parts[1..], last);
    }
  }

  method SplitAndTrim(s: string) returns (out: seq<string>)
    ensures out == OriginList(s)
  {
    out := [];
    if s == "" {
      return;
    }
    var parts := Split(s);
    for i := 0 to |parts|
      invariant out == Kept(parts[..i])
    {
      var t := TrimSpace(parts[i]);
      if t != "" {
        out := out + [t];
      }
      assert parts[..i + 1] == parts[..i] + [parts[i]];
      KeptSnoc(parts[..i], parts[i]);
    }
    assert parts[..|parts|] == parts;
  }

  lemma TrimsToNothing(s: string)
    ensures TrimSpace(s) == "" <==> Blank(s)
  {
    var left, right := TrimSplits(s);
    if Blank(s) {
      assert s == s + "" + "";
      TrimUnique(s, s, "", "");
    }
    assert TrimSpace(s) == "" ==> s == left + right;
  }

  /** `out` is the trimmed pieces at the positions `at`: those of all pieces that are not blank, in order. */
  ghost predicate Picks(at: seq<nat>, parts: seq<string>, out: seq<string>) {
    && |at| == |out|
    && (forall j, k | 0 <= j < k < |at| :: at[j] < at[k])
    && (forall k | 0 <= k < |at| :: at[k] < |parts| && out[k] == TrimSpace(parts[at[k]]))
    && (forall i | 0 <= i < |parts| :: i in at <==> !Blank(parts[i]))
  }

  lemma {:induction false} KeptPicks(parts: seq<string>) returns (at: seq<nat>)
    ensures Picks(at, parts, Kept(parts))
  {
    if parts == [] {
      at := [];
    } else {
      var front, last := parts[..|parts| - 1], parts[|parts| - 1];
      assert parts == front + [last];
      at := KeptPicks(front);
      KeptSnoc(front, last);
      TrimsToNothing(last);
      if !Blank(last) {
        var before := at;
        at := at + [|front|];
        assert forall i: nat :: i in at <==> i in before || i == |front|;
      }
    }
  }

  /** The origins are the trimmed pieces between the commas, without the blank ones, each once and in order. */
  lemma OriginsAreThePieces(s: string)
    ensures exists at :: Picks(at, Split(s), OriginList(s))
  {
    var at := KeptPicks(Split(s));
    assert OriginList(s) == Kept(Split(s)) by {
      assert s == "" ==> Split(s) == [""] && Kept(Split(s)) == [];
    }
  }

  /** What a list of origins looks like: no empty, padded or comma-holding entry. */
  ghost predicate Clean(origins: seq<string>) {
    forall i | 0 <= i < |origins| :: origins[i] != "" && Trimmed(origins[i]) && ',' !in origins[i]
  }

  lemma TrimmedIsFixed(t: string)
    requires Trimmed(t)
    ensures TrimSpace(t) == t
  {
    assert t == "" + t + "";
    TrimUnique(t, "", t, "");
  }

  lemma TrimKeepsCommaFree(s: string)
    requires ',' !in s
    ensures Trimmed(TrimSpace(s)) && ',' !in TrimSpace(s)
  {
    var left, right := TrimSplits(s);
    assert forall c | c in TrimSpace(s) :: c in s;
  }

  lemma {:induction false} KeptIsClean(parts: seq<string>)
    requires forall i | 0 <= i < |parts| :: ',' !in parts[i]
    ensures Clean(Kept(parts))
  {
    if parts != [] {
      KeptIsClean(parts[1..]);
      TrimKeepsCommaFree(parts[0]);
    }
  }

  lemma {:induction false} KeptOfClean(origins: seq<string>)
    requires Clean(origins)
    ensures Kept(origins) == origins
  {
    if origins != [] {
      TrimmedIsFixed(origins[0]);
      KeptOfClean(origins[1..]);
    }
  }

  /** Parsing undoes joining with commas, on every clean list. */
  lemma OriginsRoundTrip(origins: seq<string>)
    requires Clean(origins)
    ensures OriginList(Join(origins)) == origins
  {
    if origins != [] {
      SplitOfJoin(origins);
      KeptOfClean(origins);
      if |origins| == 1 {
        assert Join(origins) == origins[0];
      }
    }
  }

  /** On any text the result is a clean list, so parsing it again after joining changes nothing. */
  lemma OriginsFixpoint(s: string)
    ensures Clean(OriginList(s))
    ensures OriginList(Join(OriginList(s))) == OriginList(s)
  {
    if s != "" {
      JoinOfSplit(s);
      KeptIsClean(Split(s));
    }
    OriginsRoundTrip(OriginList(s));
  }

  /** A configuration that names no origin: nothing but commas and white space. */
  predicate NamesNothing(s: string) {
    forall i | 0 <= i < |s| :: s[i] == ',' || IsSpace(s[i])
  }

  predicate AllBlank(parts: seq<string>) {
    parts == [] || (Blank(parts[0]) && AllBlank(parts[1..]))
  }

  lemma {:induction false} KeptEmpty(parts: seq<string>)
    ensures Kept(parts) == [] <==> AllBlank(parts)
  {
    if parts != [] {
      TrimsToNothing(parts[0]);
      KeptEmpty(parts[1..]);
    }
  }

  lemma BlankCons(c: char, s: string)
    ensures Blank([c] + s) <==> IsSpace(c) && Blank(s)
  {
    var all := [c] + s;
    assert all[0] == c;
    assert forall i | 0 <= i < |s| :: all[i + 1] == s[i];
    assert forall i | 1 <= i < |all| :: all[i] == s[i - 1];
  }

  lemma NamesNothingCons(s: string)
    requires s != ""
    ensures NamesNothing(s) <==> (s[0] == ',' || IsSpace(s[0])) && NamesNothing(s[1..])
  {
    assert forall i | 0 <= i < |s| - 1 :: s[1..][i] == s[i + 1];
    assert forall i | 1 <= i < |s| :: s[i] == s[1..][i - 1];
  }

  lemma {:induction false} NamesNothingSplit(s: string)
    ensures NamesNothing(s) <==> AllBlank(Split(s))
  {
    if s != "" {
      NamesNothingSplit(s[1..]);
      NamesNothingCons(s);
      var rest := Split(s[1..]);
      if s[0] == ',' {
        assert Split(s)[1..] == rest;
      } else {
        BlankCons(s[0], rest[0]);
        assert Split(s)[1..] == rest[1..];
      }
    }
  }

  lemma OriginsEmpty(s: string)
    ensures OriginList(s) == [] <==> NamesNothing(s)
  {
    KeptEmpty(Split(s));
    NamesNothingSplit(s);
  }

  datatype CorsConfig = CorsConfig(allowOrigins: seq<string>, allowAllOrigins: bool, allowCredentials: bool)

  /** Wildcard origins exactly when the setting names none; never together with credentials. */
  method BuildCorsConfig(corsAllowedOrigins: string) returns (cfg: CorsConfig)
    ensures cfg.allowAllOrigins <==> NamesNothing(corsAllowedOrigins)
    ensures cfg.allowCredentials == !cfg.allowAllOrigins
    ensures cfg.allowOrigins == OriginList(corsAllowedOrigins)
  {
    cfg := CorsConfig([], false, false);
    var origins := SplitAndTrim(corsAllowedOrigins);
    OriginsEmpty(corsAllowedOrigins);
    if |origins| == 0 {
      cfg := cfg.(allowAllOrigins := true, allowCredentials := false);
      return;
    }
    cfg := cfg.(allowOrigins := origins);
    cfg := cfg.(allowCredentials := true);
  }
}
