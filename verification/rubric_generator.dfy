/** The rubric store: a role name is turned into a slug, and the rubric for
    that slug is read from the store when present; otherwise it is generated,
    parsed, stored under the slug and returned. The store is a map from slug to
    parsed rubric; the generator and the JSON parser are parameters. */
module RubricGenerator {
  import opened Wrappers
  import opened Text

  // ---------------------------------------------------------------------------
  // The slug
  // ---------------------------------------------------------------------------

  /** `role.toLowerCase().replace(/\s+/g, "-")`. */
  function RoleSlug(role: string): (slug: string)
    ensures |role| > 0 ==> |slug| > 0
  {
    ReplaceSpaceRuns(Lower(role), "-")
  }

  predicate NoUpper(s: string) {
    forall i :: 0 <= i < |s| ==> !IsUpper(s[i])
  }

  lemma {:induction false} ReplaceSpaceRunsNoUpper(s: string, rep: string)
    requires NoUpper(s) && NoUpper(rep)
    ensures NoUpper(ReplaceSpaceRuns(s, rep))
    decreases |s|
  {
    if |s| > 0 {
      if IsSpace(s[0]) {
        ReplaceSpaceRunsNoUpper(s[LeadSpaceCount(s)..], rep);
      } else {
        ReplaceSpaceRunsNoUpper(s[1..], rep);
      }
    }
  }

  /** A slug has no whitespace and no capital letters. */
  lemma SlugShape(role: string)
    ensures HasNoSpace(RoleSlug(role))
    ensures NoUpper(RoleSlug(role))
  {
    ReplaceSpaceRunsNoSpace(Lower(role), "-");
    ReplaceSpaceRunsNoUpper(Lower(role), "-");
  }

  /** Lower-casing keeps whitespace runs where they are. */
  lemma {:induction false} LowerLeadSpaceCount(s: string)
    ensures LeadSpaceCount(Lower(s)) == LeadSpaceCount(s)
    decreases |s|
  {
    if |s| > 0 {
      assert Lower(s)[1..] == Lower(s[1..]);
      LowerLeadSpaceCount(s[1..]);
    }
  }

  /** Lower-casing commutes with run replacement by a lower-case replacement. */
  lemma {:induction false} LowerReplaceSpaceRuns(s: string, rep: string)
    requires Lower(rep) == rep
    ensures Lower(ReplaceSpaceRuns(s, rep)) == ReplaceSpaceRuns(Lower(s), rep)
    decreases |s|
  {
    if |s| > 0 {
      if IsSpace(s[0]) {
        var n := LeadSpaceCount(s);
        LowerLeadSpaceCount(s);
        assert Lower(s)[n..] == Lower(s[n..]);
        LowerReplaceSpaceRuns(s[n..], rep);
        LowerAppend(rep, ReplaceSpaceRuns(s[n..], rep));
      } else {
        assert Lower(s)[1..] == Lower(s[1..]);
        LowerReplaceSpaceRuns(s[1..], rep);
        LowerAppend([s[0]], ReplaceSpaceRuns(s[1..], rep));
      }
    }
  }

  /** Replacing runs by " " first changes nothing about the final replacement:
      each run becomes one space, which then becomes one `rep`. */
  lemma {:induction false} ReplaceAfterCollapse(s: string, rep: string)
    ensures ReplaceSpaceRuns(CollapseSpaces(s), rep) == ReplaceSpaceRuns(s, rep)
    decreases |s|
  {
    if |s| > 0 {
      if IsSpace(s[0]) {
        var n := LeadSpaceCount(s);
        var y := CollapseSpaces(s[n..]);
        assert CollapseSpaces(s) == " " + y;
        assert |y| > 0 ==> !IsSpace(y[0]);
        ReplaceSpaceRunsLeadingRun(" ", y, rep);
        ReplaceAfterCollapse(s[n..], rep);
      } else {
        var y := CollapseSpaces(s[1..]);
        assert CollapseSpaces(s) == [s[0]] + y;
        assert ([s[0]] + y)[1..] == y;
        ReplaceAfterCollapse(s[1..], rep);
      }
    }
  }

  /** `toLowerCase` is idempotent. */
  lemma LowerLower(s: string)
    ensures Lower(Lower(s)) == Lower(s)
  {
    assert forall i :: 0 <= i < |s| ==> ToLower(ToLower(s[i])) == ToLower(s[i]);
  }

  /** Roles that differ only in letter case or in the length of their
      whitespace runs share a slug, and hence a stored rubric. */
  lemma SameSlug(a: string, b: string)
    requires Lower(CollapseSpaces(a)) == Lower(CollapseSpaces(b))
    ensures RoleSlug(a) == RoleSlug(b)
  {
    LowerReplaceSpaceRuns(a, " ");
    LowerReplaceSpaceRuns(b, " ");
    ReplaceAfterCollapse(Lower(a), "-");
    ReplaceAfterCollapse(Lower(b), "-");
  }

  // ---------------------------------------------------------------------------
  // Load or generate
  // ---------------------------------------------------------------------------

  /** The outcome of one `getRubricForRole` call: the rubric or the exception,
      the store afterwards, and whether the generator was consulted. */
  datatype Lookup<R> = Lookup(result: Result<R, Thrown>, store: map<string, R>, generated: bool)

  /** `getRubricForRole(role)`. `generate` stands for the language model (it
      receives the role as given; `None` when the request is rejected), `parse`
      for `JSON.parse` (`None` when the text is not valid JSON). */
  function GetRubricForRole<R>(role: string, store: map<string, R>, generate: string -> Option<string>,
                               parse: string -> Option<R>): (o: Lookup<R>)
    ensures o.generated <==> RoleSlug(role) !in store
    ensures o.result.Err? <==>
      RoleSlug(role) !in store && (generate(role).None? || parse(generate(role).value).None?)
    ensures o.result.Ok? ==> RoleSlug(role) in o.store && o.store[RoleSlug(role)] == o.result.value
    ensures o.result.Err? ==> o.store == store
    ensures o.result.Err? ==> o.result.error == (if generate(role).None? then ServiceError else SyntaxError)
    ensures forall k :: k in store ==> k in o.store && o.store[k] == store[k]
    ensures forall k :: k in o.store ==> k in store || k == RoleSlug(role)
  {
    var slug := RoleSlug(role);
    if slug in store then Lookup(Ok(store[slug]), store, false)
    else
      match generate(role)
      case None => Lookup(Err(ServiceError), store, true)
      case Some(raw) =>
        match parse(raw)
        case None => Lookup(Err(SyntaxError), store, true)
        case Some(json) => Lookup(Ok(json), store[slug := json], true)
  }

  /** A hit returns the stored rubric and touches nothing, whatever the
      generator would have said. */
  lemma CacheHit<R>(role: string, store: map<string, R>, generate: string -> Option<string>,
                    parse: string -> Option<R>)
    requires RoleSlug(role) in store
    ensures GetRubricForRole(role, store, generate, parse) == Lookup(Ok(store[RoleSlug(role)]), store, false)
  {
  }

  /** After a successful call, any role with the same slug is a hit that returns
      the same rubric without consulting the generator again. */
  lemma SecondCallHits<R>(role: string, other: string, store: map<string, R>, generate: string -> Option<string>,
                          parse: string -> Option<R>, generate2: string -> Option<string>,
                          parse2: string -> Option<R>)
    requires GetRubricForRole(role, store, generate, parse).result.Ok?
    requires Lower(CollapseSpaces(role)) == Lower(CollapseSpaces(other))
    ensures var first := GetRubricForRole(role, store, generate, parse);
            var second := GetRubricForRole(other, first.store, generate2, parse2);
            second == Lookup(first.result, first.store, false)
  {
    SameSlug(role, other);
  }

  /** Generated text that is not valid JSON throws, and nothing is stored. */
  lemma InvalidJsonStoresNothing<R>(role: string, store: map<string, R>, generate: string -> Option<string>,
                                    parse: string -> Option<R>)
    requires RoleSlug(role) !in store && generate(role).Some? && parse(generate(role).value).None?
    ensures GetRubricForRole(role, store, generate, parse) == Lookup(Err(SyntaxError), store, true)
  {
  }

  /** A rejected request to the language model propagates, and nothing is
      stored. */
  lemma GeneratorFailureStoresNothing<R>(role: string, store: map<string, R>, generate: string -> Option<string>,
                                         parse: string -> Option<R>)
    requires RoleSlug(role) !in store && generate(role).None?
    ensures GetRubricForRole(role, store, generate, parse) == Lookup(Err(ServiceError), store, true)
  {
  }
}
