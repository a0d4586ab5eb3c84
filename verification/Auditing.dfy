/** src/mesh/audit.py, `reject_forbidden`: a worklist over a payload, cut off after ten
    thousand values. */
module Auditing {
  import opened Normalizing
  import opened JsonValues

  const FORBIDDEN_LOG_KEYS: set<string> := {
    "text", "chunk_text", "raw_document", "payload_text", "source_text", "originals", "document", "focus",
    "summary", "mapping", "table", "reasoning", "reasoning_content", "friendli_token", "broker_api_key",
    "aws_secret_access_key", "aws_session_token", "aws_access_key_id", "authorization", "x-api-key", "api_key",
    "apikey", "secret", "token", "password"
  }

  const AUDIT_MAX_VALUES: nat := 10000

  predicate Forbidden(key: string, bad: set<string>, f: Lowering) {
    Lower(key, f) in bad
  }

  ghost predicate NoneForbidden(keys: set<string>, bad: set<string>, f: Lowering) {
    forall k :: k in keys ==> !Forbidden(k, bad, f)
  }

  function Below(v: Json): seq<Json> {
    match v case Obj(fields) => Values(fields) case Arr(items) => items case _ => []
  }

  function OwnKeys(v: Json): set<string> {
    if v.Obj? then Names(v.fields) else {}
  }

  lemma Expand(rest: seq<Json>, cur: Json)
    ensures KeysOfItems(rest + [cur]) == OwnKeys(cur) + KeysOfItems(rest + Below(cur))
    ensures SizeOfItems(rest + [cur]) == 1 + SizeOfItems(rest + Below(cur))
  {
    PopKeys(rest, cur);
    ItemsConcat(rest, Below(cur));
    if cur.Obj? { FieldsAreValues(cur.fields); }
  }

  /** Rejects only for a forbidden key; and on a payload of at most ten thousand values
      accepts only if there is none at any depth. */
  method RejectForbidden(payload: Json, bad: set<string>, f: Lowering) returns (accepted: bool)
    ensures NoneForbidden(KeysOf(payload), bad, f) ==> accepted
    ensures accepted && Size(payload) <= 10000 ==> NoneForbidden(KeysOf(payload), bad, f)
  {
    var stack, seen := [payload], 0;
    ghost var checked: set<string> := {};
    assert KeysOfItems(stack) == KeysOf(payload) && SizeOfItems(stack) == Size(payload) by {
      PopKeys([], payload);
      assert [] + [payload] == stack;
    }
    while stack != [] && seen < AUDIT_MAX_VALUES
      invariant checked + KeysOfItems(stack) == KeysOf(payload) && NoneForbidden(checked, bad, f)
      invariant seen + SizeOfItems(stack) == Size(payload)
      decreases SizeOfItems(stack)
    {
      var cur, rest := stack[|stack| - 1], stack[..|stack| - 1];
      ghost var before := KeysOfItems(stack);
      assert before == OwnKeys(cur) + KeysOfItems(rest + Below(cur))
          && SizeOfItems(stack) == 1 + SizeOfItems(rest + Below(cur)) by {
        assert stack == rest + [cur];
        Expand(rest, cur);
      }
      seen := seen + 1;
      var clean := KeysClean(if cur.Obj? then cur.fields else [], bad, f);
      if !clean {
        ghost var k :| k in OwnKeys(cur) && Forbidden(k, bad, f);
        assert k in KeysOf(payload);
        return false;
      }
      checked := checked + OwnKeys(cur);
      stack := rest + Below(cur);
    }
    SizePositive(stack);
    accepted := true;
  }

  method KeysClean(fields: seq<Field>, bad: set<string>, f: Lowering) returns (clean: bool)
    ensures clean <==> NoneForbidden(Names(fields), bad, f)
  {
    for i := 0 to |fields|
      invariant forall j :: 0 <= j < i ==> !Forbidden(fields[j].key, bad, f)
    {
      if Forbidden(fields[i].key, bad, f) {
        assert fields[i].key in Names(fields);
        return false;
      }
    }
    clean := true;
  }

  lemma SizePositive(items: seq<Json>)
    ensures SizeOfItems(items) == 0 <==> items == []
  {
  }
}
