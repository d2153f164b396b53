/** `UnhandledExceptionDecorator`: runs the inner handler; when it throws, logs the
    exception with the request's type name and rethrows it unchanged. The query and the
    command variants have the same body and are modelled once. */
module UnhandledExceptions {
  import opened Common
  import opened Repository
  import opened Requests

  /** The message template both variants pass to `LogError`; the command variant also
      says "query". */
  const Template: string := "Unhandled exception occurred while processing query of type {QueryType}"

  /** One `LogError(exception, template, typeName)` call. */
  datatype LogEntry = LogEntry(exception: Exception, template: string, requestType: string)

  /** The error-level entries an `ILogger<TRequest>` has received. */
  class Logger {
    var entries: seq<LogEntry>

    constructor ()
      ensures entries == []
    {
      entries := [];
    }

    /** `logger.LogError(exception, template, typeName)`. */
    method LogError(exception: Exception, template: string, typeName: string)
      modifies this
      ensures entries == old(entries) + [LogEntry(exception, template, typeName)]
    {
      entries := entries + [LogEntry(exception, template, typeName)];
    }
  }

  /** The log after the decorator has seen the inner outcome: one entry more exactly
      when the inner handler threw, naming that exception and the request type. */
  function Logged(log: seq<LogEntry>, r: Request, o: Outcome<Reply>): (after: seq<LogEntry>)
    ensures o.Returned? ==> after == log
    ensures o.Threw? ==> |after| == |log| + 1 && after[..|log|] == log
    ensures o.Threw? ==> after[|log|] == LogEntry(o.exception, Template, TypeName(r))
  {
    if o.Threw? then log + [LogEntry(o.exception, Template, TypeName(r))] else log
  }

  /** The decorator the container wraps around each handler first. */
  class UnhandledExceptionHandler {
    const inner: ToDoHandlers
    const logger: Logger

    constructor (inner: ToDoHandlers, logger: Logger)
      ensures this.inner == inner && this.logger == logger
    {
      this.inner := inner;
      this.logger := logger;
    }

    /** The inner outcome, thrown or returned, passes through unchanged; only a throw is
        logged. */
    method Handle(r: Request, engine: Engine, newId: Guid) returns (o: Outcome<Reply>)
      requires inner.Wired() && NonNullFields(r)
      modifies inner.repository.context, inner.repository.interceptor.timeProvider, logger
      ensures (o, inner.repository.State()) ==
        Handled(old(inner.repository.State()), r, engine, inner.repository.Ticks(), inner.repository.UserId(), newId)
      ensures logger.entries == Logged(old(logger.entries), r, o)
    {
      o := inner.Handle(r, engine, newId);
      if o.Threw? {
        logger.LogError(o.exception, Template, TypeName(r));
      }
    }
  }
}
