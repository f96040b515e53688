// The filter-to-SQL translator, a parser for what it emits, and the direct meaning.
module FilterSql {
  import opened Wrappers
  import opened Json
  import opened PyText

  // ---- filters -------------------------------------------------------------------

  type Plain = j: Json | !j.Object? witness Null

  datatype Cmp = Eq | Ne | Gt | Gte | Lt | Lte

  datatype Op =
    | Compare(cmp: Cmp, value: Json)
    | In(values: seq<Json>)
    | Nin(values: seq<Json>)
    | Exists(flag: bool)
    | Regex(pattern: string)
    | Options(flags: string)
    | Unknown(name: string)

  // A clause that is a mapping holds operators; any other is the equality shortcut.
  datatype Clause = Value(value: Plain) | Ops(ops: seq<Op>)

  datatype Item =
    | Field(name: string, clause: Clause)
    | And(subs: seq<Filter>)
    | Or(subs: seq<Filter>)
    | Nor(subs: seq<Filter>)

  datatype Filter = Filter(items: seq<Item>)

  /** No `$and`, `$or` or `$nor` list is empty. */
  predicate ListsNonEmpty(f: Filter)
    decreases f
  {
    ItemsNonEmpty(f.items)
  }

  predicate ItemsNonEmpty(items: seq<Item>)
    decreases items
  {
    items == [] || (ItemNonEmpty(items[0]) && ItemsNonEmpty(items[1..]))
  }

  predicate ItemNonEmpty(item: Item)
    decreases item
  {
    item.Field? || (item.subs != [] && SubsNonEmpty(item.subs))
  }

  predicate SubsNonEmpty(subs: seq<Filter>)
    decreases subs
  {
    subs == [] || (ListsNonEmpty(subs[0]) && SubsNonEmpty(subs[1..]))
  }

  // ---- rows and three-valued logic --------------------------------------------------

  datatype Row = Row(id: string, data: Json)

  datatype Truth = True | False | Unknown3

  function Of(b: bool): Truth {
    if b then True else False
  }

  function Not3(a: Truth): Truth {
    match a
    case True => False
    case False => True
    case Unknown3 => Unknown3
  }

  function And3(a: Truth, b: Truth): Truth {
    if a == False || b == False then False
    else if a == True && b == True then True
    else Unknown3
  }

  function Or3(a: Truth, b: Truth): Truth {
    Not3(And3(Not3(a), Not3(b)))
  }

  // What the database and Python decide about scalars.
  datatype Dialect = Dialect(
    pyStr: Json -> string,
    sqlText: Json -> string,
    jsonLess: (Json, Json) -> bool,
    textLess: (string, string) -> bool,
    matches: (string, bool, string) -> bool)

  function Decide(cmp: Cmp, equal: bool, less: bool): Truth {
    match cmp
    case Eq => Of(equal)
    case Ne => Of(!equal)
    case Gt => Of(!equal && !less)
    case Gte => Of(!less)
    case Lt => Of(less)
    case Lte => Of(equal || less)
  }

  /** `#>`: keys of objects, positions of arrays. */
  function SqlGet(j: Json, parts: seq<string>): Option<Json> {
    if parts == [] then Some(j)
    else
      match j
      case Object(fields) => if parts[0] in fields then SqlGet(fields[parts[0]], parts[1..]) else None
      case Array(items) =>
        (match ParseInt(parts[0])
         case None => None
         case Some(n) =>
           var at := if n < 0 then n + |items| else n;
           if 0 <= at < |items| then SqlGet(items[at], parts[1..]) else None)
      case _ => None
  }

  /** `#>>`: NULL for a JSON null too. */
  function SqlGetText(d: Dialect, j: Json, parts: seq<string>): Option<string> {
    match SqlGet(j, parts)
    case None => None
    case Some(v) => if v.Null? then None else Some(d.sqlText(v))
  }

  function CompareJson(d: Dialect, row: Row, parts: seq<string>, cmp: Cmp, v: Json): Truth {
    match SqlGet(row.data, parts)
    case None => Unknown3
    case Some(j) => Decide(cmp, j == v, d.jsonLess(j, v))
  }

  function CompareText(d: Dialect, row: Row, parts: seq<string>, cmp: Cmp, v: string): Truth {
    match SqlGetText(d, row.data, parts)
    case None => Unknown3
    case Some(s) => Decide(cmp, s == v, d.textLess(s, v))
  }

  // ---- the direct meaning of a filter -------------------------------------------------

  function CoerceId(d: Dialect, v: Json): string {
    if v.Text? then v.s else d.pyStr(v)
  }

  /** Numbers and booleans are compared as JSON, everything else as text. */
  function MeansCompare(d: Dialect, row: Row, parts: seq<string>, cmp: Cmp, v: Json): Truth {
    if v.Number? || v.Bool? then CompareJson(d, row, parts, cmp, v)
    else CompareText(d, row, parts, cmp, d.pyStr(v))
  }

  function AnyEqual(d: Dialect, row: Row, parts: seq<string>, values: seq<Json>): Truth {
    if values == [] then False
    else Or3(CompareJson(d, row, parts, Eq, values[0]), AnyEqual(d, row, parts, values[1..]))
  }

  function AnyId(d: Dialect, row: Row, values: seq<Json>): Truth {
    if values == [] then False
    else Or3(Of(row.id == CoerceId(d, values[0])), AnyId(d, row, values[1..]))
  }

  function IgnoreCase(ops: seq<Op>): bool {
    exists i :: 0 <= i < |ops| && ops[i].Options? && 'i' in ops[i].flags
  }

  function MeansOp(d: Dialect, row: Row, name: string, op: Op, ignoreCase: bool): Truth {
    var parts := Split(name);
    match op
    case Compare(cmp, v) => MeansCompare(d, row, parts, cmp, v)
    case In(values) => AnyEqual(d, row, parts, values)
    case Nin(values) => Not3(AnyEqual(d, row, parts, values))
    case Exists(flag) => Of(SqlGet(row.data, parts).Some? == flag)
    case Regex(pattern) =>
      (match SqlGetText(d, row.data, parts)
       case None => Unknown3
       case Some(s) => Of(d.matches(pattern, ignoreCase, s)))
    case Options(_) => True
    case Unknown(_) => Unknown3
  }

  function MeansIdOp(d: Dialect, row: Row, op: Op): Truth {
    match op
    case Compare(Eq, v) => Of(row.id == CoerceId(d, v))
    case Compare(Ne, v) => Of(row.id != CoerceId(d, v))
    case In(values) => AnyId(d, row, values)
    case Nin(values) => Not3(AnyId(d, row, values))
    case _ => Unknown3
  }

  function MeansOps(d: Dialect, row: Row, name: string, ops: seq<Op>, ignoreCase: bool): Truth {
    if ops == [] then True
    else And3(if name == "_id" then MeansIdOp(d, row, ops[0]) else MeansOp(d, row, name, ops[0], ignoreCase),
              MeansOps(d, row, name, ops[1..], ignoreCase))
  }

  function Means(d: Dialect, row: Row, f: Filter): Truth
    decreases f
  {
    MeansAll(d, row, f.items)
  }

  function MeansAll(d: Dialect, row: Row, items: seq<Item>): Truth
    decreases items
  {
    if items == [] then True else And3(MeansItem(d, row, items[0]), MeansAll(d, row, items[1..]))
  }

  function MeansItem(d: Dialect, row: Row, item: Item): Truth
    decreases item
  {
    match item
    case Field(name, Value(v)) =>
      if name == "_id" then Of(row.id == CoerceId(d, v)) else Of(Contains(row.data, Nest(Split(name), v)))
    case Field(name, Ops(ops)) => MeansOps(d, row, name, ops, IgnoreCase(ops))
    case And(subs) => Every(d, row, subs)
    case Or(subs) => Some_(d, row, subs)
    case Nor(subs) => Not3(Some_(d, row, subs))
  }

  function Every(d: Dialect, row: Row, subs: seq<Filter>): Truth
    decreases subs
  {
    if subs == [] then True else And3(Means(d, row, subs[0]), Every(d, row, subs[1..]))
  }

  function Some_(d: Dialect, row: Row, subs: seq<Filter>): Truth
    decreases subs
  {
    if subs == [] then False else Or3(Means(d, row, subs[0]), Some_(d, row, subs[1..]))
  }

  // ---- tokens ---------------------------------------------------------------------------

  datatype Arg = JsonArg(j: Json) | TextArg(s: string)

  // A predicate of the WHERE clause with its `$n` placeholders.
  datatype Atom =
    | DataContains(ph: nat)
    | JsonCmp(parts: seq<string>, cmp: Cmp, ph: nat)
    | TextCmp(parts: seq<string>, cmp: Cmp, ph: nat)
    | JsonIn(parts: seq<string>, phs: seq<nat>, negated: bool)
    | HasKey(ph: nat)
    | PathNotNull(parts: seq<string>)
    | RegexMatch(parts: seq<string>, ignoreCase: bool, ph: nat)
    | IdCmp(equal: bool, ph: nat)
    | IdIn(phs: seq<nat>, negated: bool)

  datatype Token = LParen | RParen | AndTok | OrTok | NotTok | TrueTok | FalseTok | AtomTok(atom: Atom)

  function JsonAt(args: seq<Arg>, start: nat, ph: nat): Option<Json> {
    if start <= ph < start + |args| && args[ph - start].JsonArg? then Some(args[ph - start].j) else None
  }

  function TextAt(args: seq<Arg>, start: nat, ph: nat): Option<string> {
    if start <= ph < start + |args| && args[ph - start].TextArg? then Some(args[ph - start].s) else None
  }

  function AnyJsonAt(d: Dialect, row: Row, parts: seq<string>, args: seq<Arg>, start: nat, phs: seq<nat>): Truth {
    if phs == [] then False
    else
      Or3(match JsonAt(args, start, phs[0])
          case None => Unknown3
          case Some(v) => CompareJson(d, row, parts, Eq, v),
          AnyJsonAt(d, row, parts, args, start, phs[1..]))
  }

  function AnyIdAt(row: Row, args: seq<Arg>, start: nat, phs: seq<nat>): Truth {
    if phs == [] then False
    else
      Or3(match TextAt(args, start, phs[0])
          case None => Unknown3
          case Some(v) => Of(row.id == v),
          AnyIdAt(row, args, start, phs[1..]))
  }

  /** What the database makes of a predicate, given the arguments it was sent. */
  function EvalAtom(d: Dialect, row: Row, args: seq<Arg>, start: nat, a: Atom): Truth {
    match a
    case DataContains(ph) =>
      (match JsonAt(args, start, ph) case None => Unknown3 case Some(v) => Of(Contains(row.data, v)))
    case JsonCmp(parts, cmp, ph) =>
      (match JsonAt(args, start, ph) case None => Unknown3 case Some(v) => CompareJson(d, row, parts, cmp, v))
    case TextCmp(parts, cmp, ph) =>
      (match TextAt(args, start, ph) case None => Unknown3 case Some(v) => CompareText(d, row, parts, cmp, v))
    case JsonIn(parts, phs, negated) =>
      var any := AnyJsonAt(d, row, parts, args, start, phs);
      if negated then Not3(any) else any
    case HasKey(ph) =>
      (match TextAt(args, start, ph) case None => Unknown3 case Some(k) => Of(row.data.Object? && k in row.data.fields))
    case PathNotNull(parts) => Of(SqlGet(row.data, parts).Some?)
    case RegexMatch(parts, ignoreCase, ph) =>
      (match (TextAt(args, start, ph), SqlGetText(d, row.data, parts))
       case (Some(pattern), Some(s)) => Of(d.matches(pattern, ignoreCase, s))
       case _ => Unknown3)
    case IdCmp(equal, ph) =>
      (match TextAt(args, start, ph) case None => Unknown3 case Some(v) => Of((row.id == v) == equal))
    case IdIn(phs, negated) =>
      var any := AnyIdAt(row, args, start, phs);
      if negated then Not3(any) else any
  }

  // ---- what the translator emits ----------------------------------------------------------

  datatype Emitted = Emitted(tokens: seq<Token>, args: seq<Arg>)

  datatype Parts = Parts(parts: seq<seq<Token>>, args: seq<Arg>)

  function Join(parts: seq<seq<Token>>, sep: Token): seq<Token> {
    if parts == [] then []
    else if |parts| == 1 then parts[0]
    else parts[0] + [sep] + Join(parts[1..], sep)
  }

  function Then(first: Parts, rest: Option<Parts>): Option<Parts> {
    match rest
    case None => None
    case Some(r) => Some(Parts(first.parts + r.parts, first.args + r.args))
  }

  function Placeholders(next: nat, count: nat): seq<nat> {
    seq(count, i requires 0 <= i < count => next + i)
  }

  function JsonArgs(values: seq<Json>): (args: seq<Arg>)
    ensures |args| == |values|
  {
    seq(|values|, i requires 0 <= i < |values| => JsonArg(values[i]))
  }

  function IdArgs(d: Dialect, values: seq<Json>): (args: seq<Arg>)
    ensures |args| == |values|
  {
    seq(|values|, i requires 0 <= i < |values| => TextArg(CoerceId(d, values[i])))
  }

  function One(tokens: seq<Token>, args: seq<Arg>): Option<Parts> {
    Some(Parts([tokens], args))
  }

  function EmitOp(d: Dialect, name: string, op: Op, ignoreCase: bool, next: nat): Option<Parts> {
    var parts := Split(name);
    match op
    case Compare(cmp, v) =>
      if v.Number? || v.Bool? then One([AtomTok(JsonCmp(parts, cmp, next))], [JsonArg(v)])
      else One([AtomTok(TextCmp(parts, cmp, next))], [TextArg(d.pyStr(v))])
    case In(values) =>
      if values == [] then One([FalseTok], [])
      else One([AtomTok(JsonIn(parts, Placeholders(next, |values|), false))], JsonArgs(values))
    case Nin(values) =>
      if values == [] then One([TrueTok], [])
      else One([AtomTok(JsonIn(parts, Placeholders(next, |values|), true))], JsonArgs(values))
    case Exists(flag) =>
      var present := if '.' !in name then AtomTok(HasKey(next)) else AtomTok(PathNotNull(parts));
      One(if flag then [present] else [NotTok, LParen, present, RParen],
          if '.' !in name then [TextArg(name)] else [])
    case Regex(pattern) => One([AtomTok(RegexMatch(parts, ignoreCase, next))], [TextArg(pattern)])
    case Options(_) => Some(Parts([], []))
    case Unknown(_) => None
  }

  function EmitIdOp(d: Dialect, op: Op, next: nat): Option<Parts> {
    match op
    case Compare(Eq, v) => One([AtomTok(IdCmp(true, next))], [TextArg(CoerceId(d, v))])
    case Compare(Ne, v) => One([AtomTok(IdCmp(false, next))], [TextArg(CoerceId(d, v))])
    case In(values) =>
      if values == [] then One([FalseTok], [])
      else One([AtomTok(IdIn(Placeholders(next, |values|), false))], IdArgs(d, values))
    case Nin(values) =>
      if values == [] then One([TrueTok], [])
      else One([AtomTok(IdIn(Placeholders(next, |values|), true))], IdArgs(d, values))
    case _ => None
  }

  function EmitOps(d: Dialect, name: string, ops: seq<Op>, ignoreCase: bool, next: nat): Option<Parts> {
    if ops == [] then Some(Parts([], []))
    else
      match if name == "_id" then EmitIdOp(d, ops[0], next) else EmitOp(d, name, ops[0], ignoreCase, next)
      case None => None
      case Some(first) => Then(first, EmitOps(d, name, ops[1..], ignoreCase, next + |first.args|))
  }

  /** Joining the parts of an AND-chain; no parts at all is TRUE. */
  function Chain(ps: Option<Parts>): Option<Emitted> {
    match ps
    case None => None
    case Some(p) => Some(Emitted(if p.parts == [] then [TrueTok] else Join(p.parts, AndTok), p.args))
  }

  /** Wrapping a list of sub-filters. */
  function Wrap(prefix: seq<Token>, ps: Option<Parts>, sep: Token): Option<Emitted> {
    match ps
    case None => None
    case Some(p) => Some(Emitted(prefix + [LParen] + Join(p.parts, sep) + [RParen], p.args))
  }

  function Emit(d: Dialect, f: Filter, next: nat): Option<Emitted>
    decreases f
  {
    Chain(EmitItems(d, f.items, next))
  }

  function EmitItems(d: Dialect, items: seq<Item>, next: nat): Option<Parts>
    decreases items
  {
    if items == [] then Some(Parts([], []))
    else
      match EmitItem(d, items[0], next)
      case None => None
      case Some(e) => Then(Parts([e.tokens], e.args), EmitItems(d, items[1..], next + |e.args|))
  }

  function EmitItem(d: Dialect, item: Item, next: nat): Option<Emitted>
    decreases item
  {
    match item
    case Field(name, Value(v)) =>
      if name == "_id" then Some(Emitted([AtomTok(IdCmp(true, next))], [TextArg(CoerceId(d, v))]))
      else Some(Emitted([AtomTok(DataContains(next))], [JsonArg(RebuildNested(name, v))]))
    case Field(name, Ops(ops)) => Chain(EmitOps(d, name, ops, IgnoreCase(ops), next))
    case And(subs) => Wrap([], EmitSubs(d, subs, next), AndTok)
    case Or(subs) => Wrap([], EmitSubs(d, subs, next), OrTok)
    case Nor(subs) => Wrap([NotTok], EmitSubs(d, subs, next), OrTok)
  }

  function EmitSubs(d: Dialect, subs: seq<Filter>, next: nat): Option<Parts>
    decreases subs
  {
    if subs == [] then Some(Parts([], []))
    else
      match Emit(d, subs[0], next)
      case None => None
      case Some(e) => Then(Parts([e.tokens], e.args), EmitSubs(d, subs[1..], next + |e.args|))
  }

  // ---- parsing with SQL precedence ------------------------------------------------------------
  // NOT binds tighter than AND, and AND tighter than OR (section 6.34 of ISO/IEC 9075-2:2003).

  datatype Expr = Const(value: Truth) | Pred(atom: Atom) | Not(e: Expr) | Both(l: Expr, r: Expr)
    | Either(l: Expr, r: Expr)

  type Parsed = Option<(Expr, seq<Token>)>

  function ParseOr(ts: seq<Token>): (r: Parsed)
    ensures r.Some? ==> |r.value.1| < |ts|
    decreases |ts|, 3
  {
    match ParseAnd(ts)
    case None => None
    case Some((l, rest)) =>
      if rest == [] || rest[0] != OrTok then Some((l, rest))
      else
        match ParseOr(rest[1..])
        case None => None
        case Some((r, rest')) => Some((Either(l, r), rest'))
  }

  function ParseAnd(ts: seq<Token>): (r: Parsed)
    ensures r.Some? ==> |r.value.1| < |ts|
    decreases |ts|, 2
  {
    match ParseNot(ts)
    case None => None
    case Some((l, rest)) =>
      if rest == [] || rest[0] != AndTok then Some((l, rest))
      else
        match ParseAnd(rest[1..])
        case None => None
        case Some((r, rest')) => Some((Both(l, r), rest'))
  }

  function ParseNot(ts: seq<Token>): (r: Parsed)
    ensures r.Some? ==> |r.value.1| < |ts|
    decreases |ts|, 1
  {
    if ts == [] then None
    else
      match ts[0]
      case NotTok =>
        (match ParseNot(ts[1..])
         case None => None
         case Some((e, rest)) => Some((Not(e), rest)))
      case LParen =>
        (match ParseOr(ts[1..])
         case None => None
         case Some((e, rest)) => if rest != [] && rest[0] == RParen then Some((e, rest[1..])) else None)
      case TrueTok => Some((Const(True), ts[1..]))
      case FalseTok => Some((Const(False), ts[1..]))
      case AtomTok(a) => Some((Pred(a), ts[1..]))
      case _ => None
  }

  /** A whole WHERE clause. */
  function Parse(ts: seq<Token>): Option<Expr> {
    match ParseOr(ts)
    case None => None
    case Some((e, rest)) => if rest == [] then Some(e) else None
  }

  function Eval(d: Dialect, row: Row, args: seq<Arg>, start: nat, e: Expr): Truth {
    match e
    case Const(v) => v
    case Pred(a) => EvalAtom(d, row, args, start, a)
    case Not(x) => Not3(Eval(d, row, args, start, x))
    case Both(l, r) => And3(Eval(d, row, args, start, l), Eval(d, row, args, start, r))
    case Either(l, r) => Or3(Eval(d, row, args, start, l), Eval(d, row, args, start, r))
  }
}
