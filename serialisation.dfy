/**
 * The property checker's result and `transformResultForSerialisation`, which renders the
 * failing input and the shrunk input with `pretty-format` before the result is stored.
 */
module Serialisation {
  import opened Wrappers
  import opened Js

  /** What the property checker returns: an object whose `seed` is an integer. */
  datatype CheckResult = CheckResult(seed: int, fields: map<string, Value>) {

    /** The result as the object the test code sees. */
    function AsValue(): (v: Value)
      ensures v.Obj? && Field(v, "seed") == Num(seed)
    {
      Obj(fields["seed" := Num(seed)])
    }

    /** `result.result` read as a condition: the property held. */
    predicate Passed() {
      Truthy(Field(AsValue(), "result"))
    }
  }

  /** The own properties `Object.assign` copies out of a value (for objects, all of them). */
  function OwnFields(v: Value): map<string, Value> {
    if v.Obj? then v.fields else map[]
  }

  /**
   * Lines 80-88, with `format` for `prettyFormat(_, { min: true })`. `None` stands for the
   * TypeError that `result.shrunk.smallest` throws when `shrunk` is undefined or null.
   */
  function TransformResultForSerialisation(format: Value -> string, result: map<string, Value>)
    : (out: Option<map<string, Value>>)
    ensures var shrunk := Field(Obj(result), "shrunk");
      out.None? <==> shrunk.Undefined? || shrunk.Null?
  {
    var shrunk := Field(Obj(result), "shrunk");
    if shrunk.Undefined? || shrunk.Null? then None
    else
      var fail := Str(format(Field(Obj(result), "fail")));
      var smallest := Str(format(Field(shrunk, "smallest")));
      Some(result + map["fail" := fail, "shrunk" := Obj(OwnFields(shrunk) + map["smallest" := smallest])])
  }

  /**
   * The copy keeps every property of the result, and every property of `shrunk`, except that
   * `fail` and `shrunk.smallest` are replaced by their rendered text.
   */
  lemma TransformCopiesResult(format: Value -> string, result: map<string, Value>)
    requires TransformResultForSerialisation(format, result).Some?
    ensures var out := TransformResultForSerialisation(format, result).value;
      && out.Keys == result.Keys + {"fail", "shrunk"}
      && (forall k :: k in result && k != "fail" && k != "shrunk" ==> out[k] == result[k])
      && out["fail"] == Str(format(Field(Obj(result), "fail")))
    ensures var out := TransformResultForSerialisation(format, result).value;
      var shrunk := OwnFields(Field(Obj(result), "shrunk"));
      && out["shrunk"].Obj?
      && out["shrunk"].fields.Keys == shrunk.Keys + {"smallest"}
      && (forall k :: k in shrunk && k != "smallest" ==> out["shrunk"].fields[k] == shrunk[k])
      && out["shrunk"].fields["smallest"] == Str(format(Field(Field(Obj(result), "shrunk"), "smallest")))
  {
  }

  /** The transform of a checker result keeps its seed and its verdict. */
  lemma TransformKeepsSeedAndVerdict(format: Value -> string, r: CheckResult)
    requires TransformResultForSerialisation(format, r.AsValue().fields).Some?
    ensures var out := TransformResultForSerialisation(format, r.AsValue().fields).value;
      Field(Obj(out), "seed") == Num(r.seed)
      && Field(Obj(out), "result") == Field(r.AsValue(), "result")
  {
    TransformCopiesResult(format, r.AsValue().fields);
  }

}
