/**
 * The in-process queue (packages/adapters/queue/memory.ts): `enqueue` records
 * the job and at once hands its payload to the handler registered for its
 * name, if there is one; `process` registers a handler, replacing any earlier
 * one. The module-level `q` and `handlers` are the fields of one `Queue`.
 * Handlers are functions whose effects the model does not see: each call is
 * recorded as a delivery of the payload to the handler, which is identified
 * by a value of `H`.
 */
module MemoryQueue {

  datatype Entry<P> = Entry(name: string, payload: P)

  /** A handler call: the job's name, the handler registered for it, and the payload. */
  datatype Delivery<P, H> = Delivery(name: string, handler: H, payload: P)

  datatype State<P, H> = State(q: seq<Entry<P>>, handlers: map<string, H>, delivered: seq<Delivery<P, H>>)

  /** A call of `enqueue(name, payload)` or of `process(name, handler)`. */
  datatype Op<P, H> = Put(name: string, payload: P) | Register(name: string, handler: H)

  /** Lines 9-10: the call `enqueue` makes, if any. */
  function CallFor<P, H>(handlers: map<string, H>, name: string, payload: P): seq<Delivery<P, H>> {
    if name in handlers then [Delivery(name, handlers[name], payload)] else []
  }

  /** One operation on the queue's state. */
  function Apply<P, H>(st: State<P, H>, op: Op<P, H>): State<P, H> {
    match op
    case Put(n, p) => State(st.q + [Entry(n, p)], st.handlers, st.delivered + CallFor(st.handlers, n, p))
    case Register(n, h) => State(st.q, st.handlers[n := h], st.delivered)
  }

  /** The operations in order. */
  function Run<P, H>(st: State<P, H>, ops: seq<Op<P, H>>): State<P, H>
    decreases |ops|
  {
    if ops == [] then st else Apply(Run(st, ops[..|ops| - 1]), ops[|ops| - 1])
  }

  /**
   * `enqueue` appends exactly one entry and leaves the handlers; the handler
   * is called, once and with the payload, exactly when one is registered for
   * the name.
   */
  lemma PutFacts<P, H>(st: State<P, H>, n: string, p: P)
    ensures Apply(st, Put(n, p)).q == st.q + [Entry(n, p)]
    ensures Apply(st, Put(n, p)).handlers == st.handlers
    ensures n in st.handlers <==> |Apply(st, Put(n, p)).delivered| == |st.delivered| + 1
    ensures n !in st.handlers <==> Apply(st, Put(n, p)).delivered == st.delivered
    ensures n in st.handlers ==> Apply(st, Put(n, p)).delivered == st.delivered + [Delivery(n, st.handlers[n], p)]
  {
  }

  /** `process` replaces the handler for its name only, and calls nothing. */
  lemma RegisterFacts<P, H>(st: State<P, H>, n: string, h: H)
    ensures Apply(st, Register(n, h)).handlers[n] == h
    ensures forall m :: m != n ==> (m in Apply(st, Register(n, h)).handlers <==> m in st.handlers)
    ensures forall m :: m != n && m in st.handlers ==> Apply(st, Register(n, h)).handlers[m] == st.handlers[m]
    ensures Apply(st, Register(n, h)).delivered == st.delivered && Apply(st, Register(n, h)).q == st.q
  {
  }

  /** The entries the operations enqueue, in order. */
  function Puts<P, H>(ops: seq<Op<P, H>>): seq<Entry<P>>
    decreases |ops|
  {
    if ops == [] then []
    else
      var op := ops[|ops| - 1];
      Puts(ops[..|ops| - 1]) + if op.Put? then [Entry(op.name, op.payload)] else []
  }

  /** `q` never shrinks: it is what it was, then every enqueued entry in enqueue order. */
  lemma {:induction false} QueueKeepsOrder<P, H>(st: State<P, H>, ops: seq<Op<P, H>>)
    ensures Run(st, ops).q == st.q + Puts(ops)
    decreases |ops|
  {
    if ops != [] {
      QueueKeepsOrder(st, ops[..|ops| - 1]);
    }
  }

  /** The calls made for jobs named `n`, in order. */
  function CallsTo<P, H>(ds: seq<Delivery<P, H>>, n: string): seq<Delivery<P, H>>
    decreases |ds|
  {
    if ds == [] then []
    else CallsTo(ds[..|ds| - 1], n) + if ds[|ds| - 1].name == n then [ds[|ds| - 1]] else []
  }

  lemma CallsToSnoc<P, H>(ds: seq<Delivery<P, H>>, extra: seq<Delivery<P, H>>, n: string)
    requires |extra| <= 1
    ensures CallsTo(ds + extra, n) == CallsTo(ds, n) + if extra != [] && extra[0].name == n then extra else []
  {
    if extra != [] {
      assert (ds + extra)[..|ds|] == ds;
    } else {
      assert ds + extra == ds;
    }
  }

  /** The payloads of the jobs named `n` the operations enqueue, in order. */
  function PayloadsTo<P, H>(ops: seq<Op<P, H>>, n: string): seq<P>
    decreases |ops|
  {
    if ops == [] then []
    else
      var op := ops[|ops| - 1];
      PayloadsTo(ops[..|ops| - 1], n) + if op.Put? && op.name == n then [op.payload] else []
  }

  /** Those payloads handed to `h`. */
  function Handed<P, H>(n: string, h: H, ps: seq<P>): (r: seq<Delivery<P, H>>)
    ensures |r| == |ps| && forall i :: 0 <= i < |ps| ==> r[i] == Delivery(n, h, ps[i])
  {
    seq(|ps|, i requires 0 <= i < |ps| => Delivery(n, h, ps[i]))
  }

  /** One operation after `h` was registered for `n`: the calls for `n` grow by the payload of a job named `n`. */
  lemma LateStep<P, H>(mid: State<P, H>, n: string, h: H, op: Op<P, H>)
    requires n in mid.handlers && mid.handlers[n] == h
    requires op.Register? ==> op.name != n
    ensures n in Apply(mid, op).handlers && Apply(mid, op).handlers[n] == h
    ensures CallsTo(Apply(mid, op).delivered, n) == CallsTo(mid.delivered, n) + if op.Put? && op.name == n then [Delivery(n, h, op.payload)] else []
  {
    if op.Put? {
      CallsToSnoc(mid.delivered, CallFor(mid.handlers, op.name, op.payload), n);
    }
  }

  lemma HandedSnoc<P, H>(n: string, h: H, ops: seq<Op<P, H>>)
    requires ops != []
    ensures var op := ops[|ops| - 1];
      Handed(n, h, PayloadsTo(ops, n)) == Handed(n, h, PayloadsTo(ops[..|ops| - 1], n)) + if op.Put? && op.name == n then [Delivery(n, h, op.payload)] else []
  {
  }

  /**
   * A handler registered for `n` receives no job enqueued before it was
   * registered, and, until `n` gets another handler, every later job named
   * `n`, once each and in enqueue order.
   */
  lemma {:induction false} LateHandler<P, H>(st: State<P, H>, n: string, h: H, post: seq<Op<P, H>>)
    requires forall i :: 0 <= i < |post| && post[i].Register? ==> post[i].name != n
    ensures n in Run(Apply(st, Register(n, h)), post).handlers && Run(Apply(st, Register(n, h)), post).handlers[n] == h
    ensures CallsTo(Run(Apply(st, Register(n, h)), post).delivered, n) == CallsTo(st.delivered, n) + Handed(n, h, PayloadsTo(post, n))
    decreases |post|
  {
    if post == [] {
      assert Handed(n, h, PayloadsTo(post, n)) == [];
    } else {
      var init := post[..|post| - 1];
      LateHandler(st, n, h, init);
      LateStep(Run(Apply(st, Register(n, h)), init), n, h, post[|post| - 1]);
      HandedSnoc(n, h, post);
    }
  }

  class Queue<P, H> {
    var q: seq<Entry<P>>
    var handlers: map<string, H>
    var delivered: seq<Delivery<P, H>>

    constructor ()
      ensures q == [] && handlers == map[] && delivered == []
    {
      q, handlers, delivered := [], map[], [];
    }

    function Snapshot(): State<P, H>
      reads this
    {
      State(q, handlers, delivered)
    }

    /** `enqueue(name, payload)`. */
    method Enqueue(name: string, payload: P)
      modifies this
      ensures Snapshot() == Apply(old(Snapshot()), Put(name, payload))
    {
      q := q + [Entry(name, payload)];
      if name in handlers {
        delivered := delivered + [Delivery(name, handlers[name], payload)];
      }
    }

    /** `process(name, handler)`. */
    method Process(name: string, handler: H)
      modifies this
      ensures Snapshot() == Apply(old(Snapshot()), Register(name, handler))
    {
      handlers := handlers[name := handler];
    }
  }
}
