/** The small part of C++ that the fir_util generator writes: prototypes of
    the static members of struct gr_fir_util, their out-of-line definitions,
    whose bodies forward to the registry returned by
    gr_fir_sysconfig_singleton(), and the per-signature info record.
    Every datatype here renders to exactly the characters the generator
    writes for it. */
module CppSyntax {

  /** Return type of a generated entry point. */
  datatype Ret = Void | PointerTo(cls: string)

  /** The single formal parameter of an entry point: its type as written
      (including any trailing `&` or `*`), then its name. */
  datatype Param = Param(ctype: string, name: string)

  /** A static member function of gr_fir_util. */
  datatype Proto = Proto(ret: Ret, name: string, param: Param)

  /** A call of a member function on the registry singleton. */
  datatype Call = SingletonCall(member: string, arg: string)

  datatype Stmt = Return(call: Call) | Eval(call: Call)

  /** An out-of-line definition `gr_fir_util::<name> (...) { body }`. */
  datatype Definition = Definition(proto: Proto, body: seq<Stmt>)

  /** A field of an info record: the implementation name, or the pointer
      to the creator function. */
  datatype Field = NameField | CreatorField(cls: string, param: Param)

  datatype Struct = Struct(name: string, fields: seq<Field>)

  const UtilClass := "gr_fir_util"
  const Singleton := "gr_fir_sysconfig_singleton()"

  function ParamText(p: Param): string
  {
    p.ctype + p.name
  }

  /** The return type as it stands in front of the name in a declaration. */
  function RetInDecl(r: Ret): string
  {
    match r
    case Void => "void "
    case PointerTo(c) => c + " *"
  }

  /** The return type on its own line above a definition. */
  function RetLine(r: Ret): string
  {
    match r
    case Void => "void"
    case PointerTo(c) => c + " *"
  }

  /** One member declaration inside `struct gr_fir_util { ... };`. */
  function DeclText(p: Proto): string
  {
    "  static " + RetInDecl(p.ret) + p.name + " (" + ParamText(p.param) + ");\n"
  }

  function CallText(c: Call): string
  {
    Singleton + "->" + c.member + " (" + c.arg + ")"
  }

  function StmtText(s: Stmt): string
  {
    match s
    case Return(c) => "  return " + CallText(c) + ";\n"
    case Eval(c) => "  " + CallText(c) + ";\n"
  }

  function BodyText(body: seq<Stmt>): string
  {
    if body == [] then "" else BodyText(body[..|body| - 1]) + StmtText(body[|body| - 1])
  }

  function DefinitionText(d: Definition): string
  {
    "\n" + RetLine(d.proto.ret) + "\n"
    + UtilClass + "::" + d.proto.name + " (" + ParamText(d.proto.param) + ")\n"
    + "{\n" + BodyText(d.body) + "}\n"
  }

  function FieldText(f: Field): string
  {
    match f
    case NameField =>
      "  const char    *name;             // implementation name, e.g., \"generic\", \"SSE\", \"3DNow!\"\n"
    case CreatorField(c, p) =>
      "  " + c + "\t*(*create)(" + ParamText(p) + ");\n"
  }

  function FieldsText(fields: seq<Field>): string
  {
    if fields == [] then "" else FieldsText(fields[..|fields| - 1]) + FieldText(fields[|fields| - 1])
  }

  function StructText(s: Struct): string
  {
    "\nstruct " + s.name + " {\n" + FieldsText(s.fields) + "};\n"
  }

  /** The definition the generator writes for an entry point: a single
      statement that calls the registry member of the same name with the
      entry point's own parameter, returning its result unchanged unless
      the entry point returns void. */
  function Delegation(p: Proto): (d: Definition)
    ensures d.proto == p && |d.body| == 1
    ensures d.body[0].call == SingletonCall(p.name, p.param.name)
    ensures d.body[0].Return? <==> p.ret.PointerTo?
  {
    var call := SingletonCall(p.name, p.param.name);
    Definition(p, [if p.ret.Void? then Eval(call) else Return(call)])
  }
}
