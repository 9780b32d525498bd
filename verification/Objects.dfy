/** Heap objects as the collector sees them: a mark bit, the link of the object list, and
    the references blacken_object follows. */
module Objects {
  import opened Values

  /** A value field: null, something that is not an object, or an object. */
  datatype Val = Nil | Scalar | Ref(o: Obj)

  /** The pointers of one call frame. */
  datatype FrameRefs = FrameRefs(closure: Obj?, localScopes: Obj?, closureScope: Obj?,
                                 continuationReturn: Obj?, traceCall: Obj?, traceSource: Obj?)

  datatype Content =
    | Leaf
    | ClassObject(name: Obj?, interfaces: Obj?, fields: Obj?)
    | JavaObject(classObject: Obj?, list: Obj?, table: Obj?, fields: Obj?, value: Val)
    | Array(elements: seq<Val>, viewSource: Obj?)
    | Hash(entries: seq<(Val, Val)>, missPolicy: Obj?, removalPolicy: Obj?)
    | Function(name: Obj?, sourceName: Obj?, constants: seq<Val>)
    | Closure(function_: Obj?, scope: Obj?, callName: Obj?, regexStates: seq<(Obj?, Obj?)>, lastMatches: Obj?,
              upvalues: seq<Obj?>, coroutineStack: seq<Val>, coroutineFrames: seq<FrameRefs>)
    | Upvalue(closed: Val)
    | Continuation(stack: seq<Val>, frames: seq<FrameRefs>, owner: Obj?, traceCall: Obj?, traceSource: Obj?)
    | Native(name: Obj?)
    | Bridge(keyword: Obj?, name: Obj?, closure: Obj?)
    | Handle(token: Val, objects: seq<Val>)
    | KeyValue(key: Val, value: Val)
    | Tainted(value: Val)
    | Cell(value: Val, watchName: Obj?)

  /** `text` holds the characters of a string object and is None for every other kind. */
  class Obj {
    const text: Option<string>
    var content: Content
    var marked: bool
    var next: Obj?

    constructor (text: Option<string>, content: Content, next: Obj?)
      ensures this.text == text && this.content == content && this.next == next && !marked
    {
      this.text := text;
      this.content := content;
      this.next := next;
      marked := false;
    }
  }

  function OfPointer(o: Obj?): seq<Obj> { if o == null then [] else [o] }

  function OfVal(v: Val): seq<Obj> { if v.Ref? then [v.o] else [] }

  function OfVals(vs: seq<Val>): seq<Obj> { if vs == [] then [] else OfVal(vs[0]) + OfVals(vs[1..]) }

  function OfPointers(os: seq<Obj?>): seq<Obj> { if os == [] then [] else OfPointer(os[0]) + OfPointers(os[1..]) }

  /** A slot without a key is not followed, whatever its value. */
  function OfEntries(es: seq<(Val, Val)>): seq<Obj> {
    if es == [] then []
    else (if es[0].0.Nil? then [] else OfVal(es[0].0) + OfVal(es[0].1)) + OfEntries(es[1..])
  }

  function OfPairs(ps: seq<(Obj?, Obj?)>): seq<Obj> {
    if ps == [] then [] else OfPointer(ps[0].0) + OfPointer(ps[0].1) + OfPairs(ps[1..])
  }

  function OfFrames(fs: seq<FrameRefs>): seq<Obj> {
    if fs == [] then []
    else
      var f := fs[0];
      OfPointers([f.closure, f.localScopes, f.closureScope, f.continuationReturn, f.traceCall, f.traceSource])
      + OfFrames(fs[1..])
  }

  /** The objects blacken_object marks, in its order. */
  function Kids(c: Content): seq<Obj> {
    match c
    case Leaf => []
    case ClassObject(name, interfaces, fields) => OfPointers([name, interfaces, fields])
    case JavaObject(classObject, list, table, fields, value) =>
      OfPointers([classObject, list, table, fields]) + OfVal(value)
    case Array(elements, viewSource) => OfVals(elements) + OfPointer(viewSource)
    case Hash(entries, missPolicy, removalPolicy) => OfEntries(entries) + OfPointers([missPolicy, removalPolicy])
    case Function(name, sourceName, constants) => OfPointers([name, sourceName]) + OfVals(constants)
    case Closure(function_, scope, callName, regexStates, lastMatches, upvalues, coroutineStack, coroutineFrames) =>
      OfPointers([function_, scope, callName]) + OfPairs(regexStates) + OfPointer(lastMatches)
      + OfPointers(upvalues) + OfVals(coroutineStack) + OfFrames(coroutineFrames)
    case Upvalue(closed) => OfVal(closed)
    case Continuation(stack, frames, owner, traceCall, traceSource) =>
      OfVals(stack) + OfFrames(frames) + OfPointers([owner, traceCall, traceSource])
    case Native(name) => OfPointer(name)
    case Bridge(keyword, name, closure) => OfPointers([keyword, name, closure])
    case Handle(token, objects) => OfVal(token) + OfVals(objects)
    case KeyValue(key, value) => OfVal(key) + OfVal(value)
    case Tainted(value) => OfVal(value)
    case Cell(value, watchName) => OfVal(value) + OfPointer(watchName)
  }
}
