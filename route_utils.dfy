/** `parseSelectQuery` of app/RouteUtils.js: turns the `select` parameter of
    a request (absent, one field name, or several) into the space-separated
    projection string a database query takes. */
module RouteUtils {
  import opened JsValues
  import opened Builtins

  /** The query parameter as the router hands it over. */
  datatype SelectQuery = Null | Missing | Field(name: string) | Fields(names: seq<string>)

  /** `!selectQuery`: null, undefined and "" are falsy; every array is truthy. */
  predicate Falsy(q: SelectQuery) {
    q.Null? || q.Missing? || (q.Field? && q.name == "")
  }

  /** `parseSelectQuery(selectQuery)`; None is `null`. */
  function ParseSelectQuery(q: SelectQuery): (r: Option<string>)
    ensures r == None <==> Falsy(q)
    ensures q.Field? && q.name != "" ==> r == Some(q.name)
    ensures q.Fields? ==> r == Some(Join(q.names, " "))
  {
    if Falsy(q) then None
    else
      var parts := if q.Field? then [q.name] else q.names;
      Some(Join(parts, " "))
  }

  /** An empty array is truthy: it yields the empty string, not null. */
  lemma EmptyArrayGivesEmptyString()
    ensures ParseSelectQuery(Fields([])) == Some("")
  {
  }

  /** Splitting the result on spaces gives back the field names, for any
      non-empty list of names that contain no space. */
  lemma ParseSelectQueryRoundTrip(names: seq<string>)
    requires names != []
    requires forall k :: 0 <= k < |names| ==> ' ' !in names[k]
    ensures ParseSelectQuery(Fields(names)).Some?
    ensures Split(ParseSelectQuery(Fields(names)).value, ' ') == names
  {
    SplitJoin(names, ' ');
  }

  /** One field name given as a string or as a one-element array is the same query. */
  lemma SingleFieldAsArray(name: string)
    requires name != ""
    ensures ParseSelectQuery(Field(name)) == ParseSelectQuery(Fields([name]))
  {
  }
}
