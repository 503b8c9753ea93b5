/** Which source wins for each key of a node's context. */
module WorkflowContext {
  import opened Prelude
  import opened WorkflowModel

  /** Exposing dependencies adds their outputs and never overwrites a key. */
  lemma {:induction false} ExposeExactly(deps: seq<Id>, results: map<Id, Result>, ctx: Ctx, k: string)
    ensures k in Expose(deps, results, ctx) <==> k in ctx || (k in deps && Exposed(k, results))
    ensures k in ctx ==> Expose(deps, results, ctx)[k] == ctx[k]
    ensures k !in ctx && k in deps && Exposed(k, results) ==> Expose(deps, results, ctx)[k] == results[k].output
  {
    if deps != [] {
      var d := deps[0];
      assert deps == [d] + deps[1..];
      ExposeExactly(deps[1..], results, if Exposed(d, results) && d !in ctx then ctx[d := results[d].output] else ctx, k);
    }
  }

  predicate Flattened(md: Ctx, k: string) {
    "inputs" in md && md["inputs"].Dict? && k in md["inputs"].fields
  }

  /**
    Explicit mappings win over dependency outputs, those over session metadata, and
    metadata over the flattened session inputs; nothing else is in the context.
   */
  lemma ContextPrecedence(c: Chain, id: Id, results: map<Id, Result>, k: string)
    requires id in c.nodes && BuildContext(c, id, results).Some?
    ensures var ctx, node := BuildContext(c, id, results).value, c.nodes[id];
      if k in node.inputs then
        && k in ctx
        && match node.inputs[k]
           case Literal(v) => ctx[k] == v
           case From(src, path) =>
             src in results && results[src].success && c.resolve(results[src].output, path) == Some(ctx[k])
      else if k in node.deps && k in results && results[k].success && results[k].output != Null then
        k in ctx && ctx[k] == results[k].output
      else if k in c.metadata then
        k in ctx && ctx[k] == c.metadata[k]
      else if Flattened(c.metadata, k) then
        k in ctx && ctx[k] == c.metadata["inputs"].fields[k]
      else
        k !in ctx
  {
    var node := c.nodes[id];
    assert k in node.inputs ==> MappingValue(c, node.inputs[k], results).Some?;
    ExposeExactly(node.deps, results, MappedInputs(c, node, results).value, k);
  }

  /** A failed or silent dependency is invisible to its dependents. */
  lemma FailedOutputsHidden(c: Chain, id: Id, results: map<Id, Result>, d: Id)
    requires id in c.nodes && BuildContext(c, id, results).Some?
    requires d in c.nodes[id].deps && !(d in results && results[d].success && results[d].output != Null)
    requires d !in c.nodes[id].inputs
    requires d !in c.metadata && !Flattened(c.metadata, d)
    ensures d !in BuildContext(c, id, results).value
  {
    ContextPrecedence(c, id, results, d);
  }
}
