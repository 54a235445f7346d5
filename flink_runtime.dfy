/** The two Flink collaborators the connector pushes records into. Both are append-only
    from the connector's point of view; only the list behind a ListCollector is cleared. */
module FlinkRuntime {

  /** Flink's ListCollector: collect() appends to the backing list. */
  class ListCollector<R> {
    var items: seq<R>

    constructor ()
      ensures items == []
    {
      items := [];
    }

    method Collect(x: R)
      modifies this
      ensures items == old(items) + [x]
    {
      items := items + [x];
    }

    /** List.clear() on the backing list. */
    method Clear()
      modifies this
      ensures items == []
    {
      items := [];
    }
  }

  /** The source context a parallel source emits into; `emitted` is everything it has
      received so far, in order. */
  class SourceContext<R> {
    var emitted: seq<R>

    constructor ()
      ensures emitted == []
    {
      emitted := [];
    }

    method Collect(x: R)
      modifies this
      ensures emitted == old(emitted) + [x]
    {
      emitted := emitted + [x];
    }
  }
}
