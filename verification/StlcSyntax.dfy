/** Syntax trees of the STLC example; every node carries its identity. */
module StlcSyntax {
  import opened Wrappers

  type Id = int

  /** The text of an identifier token; `None` when the token is missing or no identifier. */
  type Name = Option<string>

  datatype Expr =
    | If(id: Id, condition: Expr, whenTrue: Expr, whenFalse: Expr)
    | Case(id: Id, scrutinee: Expr, zero: Expr, binder: Name, successor: Expr)
    | Let(id: Id, name: Name, value: Expr, body: Expr)
    | Lambda(id: Id, parameter: Param, body: Expr)
    | Add(id: Id, left: Expr, right: Expr)
    | Apply(id: Id, function0: Expr, argument: Expr)
    | Succ(id: Id, value: Expr)
    | Group(id: Id, inner: Expr)
    | Variable(id: Id, text: Name)
    | True(id: Id)
    | False(id: Id)
    | Number(id: Id)
    | UnitValue(id: Id)
    | ErrorExpr(id: Id)

  datatype Param = Param(id: Id, name: Name, annotation: Option<TypeExpr>)

  datatype TypeExpr =
    | Arrow(id: Id, left: TypeExpr, right: TypeExpr)
    | Simple(id: Id, atom: TypeAtom)
    | ErrorType(id: Id)

  datatype TypeAtom = NatAtom(id: Id) | BoolAtom(id: Id) | UnitAtom(id: Id) | Parens(id: Id, inner: TypeExpr)

  datatype Declaration =
    | Value(id: Id, name: Name, parameters: seq<Param>, annotation: Option<TypeExpr>, body: Expr)
    | Import(id: Id)
    | Export(id: Id)
    | ErrorDeclaration(id: Id)

  datatype Document = Lines(id: Id, declarations: seq<Declaration>)

  /** The identities of the binding nodes below an expression. */
  function Binders(e: Expr): set<Id> {
    match e
    case If(_, c, t, f) => Binders(c) + Binders(t) + Binders(f)
    case Case(id, s, z, _, n) => {id} + Binders(s) + Binders(z) + Binders(n)
    case Let(id, _, v, b) => {id} + Binders(v) + Binders(b)
    case Lambda(_, p, b) => {p.id} + Binders(b)
    case Add(_, l, r) => Binders(l) + Binders(r)
    case Apply(_, f, a) => Binders(f) + Binders(a)
    case Succ(_, v) => Binders(v)
    case Group(_, v) => Binders(v)
    case _ => {}
  }

  /** No binder encloses itself: identities along every path are distinct. */
  predicate Proper(e: Expr) {
    match e
    case If(_, c, t, f) => Proper(c) && Proper(t) && Proper(f)
    case Case(id, s, z, _, n) => Proper(s) && Proper(z) && Proper(n) && id !in Binders(n)
    case Let(id, _, v, b) => Proper(v) && Proper(b) && id !in Binders(b)
    case Lambda(_, p, b) => Proper(b) && p.id !in Binders(b)
    case Add(_, l, r) => Proper(l) && Proper(r)
    case Apply(_, f, a) => Proper(f) && Proper(a)
    case Succ(_, v) => Proper(v)
    case Group(_, v) => Proper(v)
    case _ => true
  }
}
