/** The name tables of src/ast_dump.c used to label tree nodes. */
module AstDump {
  import opened Common
  import opened Ast

  /** `ast_operation_dict`, in source order. */
  const OperationNames: seq<(string, Operation)> := [
    (";", Sentinel),
    ("+", Add), ("-", Sub), ("*", Mul), ("/", Div),
    ("\\<", Lt), ("\\>", Gt), ("\\<=", Le), ("\\>=", Ge), ("==", Ee), ("!=", Ne),
    ("=", Assignment),
    ("if", If), ("else", Else), ("while", While), ("break", Break), ("return", Return)
  ]

  /** `ast_const_dict`, in source order. */
  const ConstNames: seq<(string, ConstType)> := [
    ("short", ConstShort), ("int", ConstInt), ("long", ConstLong), ("double", ConstDouble), ("char", ConstChar)
  ]

  /** `GetStrOp`: the string of the first row for `op`; NULL (None) exactly
      when no row of `ast_operation_dict` carries `op`. */
  function GetStrOp(op: Operation): (r: Option<string>)
    ensures r.None? <==> forall i :: 0 <= i < |OperationNames| ==> OperationNames[i].1 != op
    ensures r.Some? ==> exists i :: 0 <= i < |OperationNames| && OperationNames[i] == (r.value, op)
  {
    FirstMatchSpec(OperationNames, op);
    FirstMatch(OperationNames, op)
  }

  /** `GetStrConst`: the keyword of the first row for `c`; NULL (None)
      exactly when no row of `ast_const_dict` carries `c`. */
  function GetStrConst(c: ConstType): (r: Option<string>)
    ensures r.None? <==> forall i :: 0 <= i < |ConstNames| ==> ConstNames[i].1 != c
    ensures r.Some? ==> exists i :: 0 <= i < |ConstNames| && ConstNames[i] == (r.value, c)
  {
    FirstMatchSpec(ConstNames, c);
    FirstMatch(ConstNames, c)
  }

  /** No row of `ast_operation_dict` is for a logical connective, a call,
      print or the undefined operation. */
  lemma NoOperationRow(op: Operation)
    requires op == OpUndefined || op == LAnd || op == LOr || op == Call || op == Print
    ensures forall i :: 0 <= i < |OperationNames| ==> OperationNames[i].1 != op
  {
  }

  /** Every other operation has a row. */
  lemma OperationRow(op: Operation) returns (i: nat)
    requires !(op == OpUndefined || op == LAnd || op == LOr || op == Call || op == Print)
    ensures i < |OperationNames| && OperationNames[i].1 == op
  {
    i := match op
      case Sentinel => 0 case Add => 1 case Sub => 2 case Mul => 3 case Div => 4
      case Lt => 5 case Gt => 6 case Le => 7 case Ge => 8 case Ee => 9 case Ne => 10
      case Assignment => 11 case If => 12 case Else => 13 case While => 14
      case Break => 15 case Return => 16;
  }

  /** The operations without a row: the logical connectives, calls, print
      and the undefined operation print as NULL; every other one has a name. */
  lemma GetStrOpNull(op: Operation)
    ensures GetStrOp(op).None? <==> op == OpUndefined || op == LAnd || op == LOr || op == Call || op == Print
  {
    if op == OpUndefined || op == LAnd || op == LOr || op == Call || op == Print {
      NoOperationRow(op);
    } else {
      var i := OperationRow(op);
    }
  }

  /** VOID and UNDEFINED have no keyword row; the other types do. */
  lemma GetStrConstNull(c: ConstType)
    ensures GetStrConst(c).None? <==> c == ConstUndefined || c == ConstVoid
  {
    var t := ConstNames;
    match c {
      case ConstShort => assert t[0].1 == c;
      case ConstInt => assert t[1].1 == c;
      case ConstLong => assert t[2].1 == c;
      case ConstDouble => assert t[3].1 == c;
      case ConstChar => assert t[4].1 == c;
      case _ =>
    }
  }

  /** Sample rows: the statement separator, an arithmetic operator and
      assignment. */
  lemma GetStrOpRows()
    ensures GetStrOp(Sentinel) == Some(";") && GetStrOp(Add) == Some("+")
    ensures GetStrOp(Assignment) == Some("=")
  {
    FirstMatchAt(OperationNames, Sentinel, 0);
    FirstMatchAt(OperationNames, Add, 1);
    FirstMatchAt(OperationNames, Assignment, 11);
  }

  /** The strict relational operators are printed with a backslash escape
      (the record-label syntax of Graphviz reserves `<` and `>`). */
  lemma GetStrOpEscapesStrict()
    ensures GetStrOp(Lt) == Some("\\<") && GetStrOp(Gt) == Some("\\>")
  {
    FirstMatchAt(OperationNames, Lt, 5);
    FirstMatchAt(OperationNames, Gt, 6);
  }

  /** So are the non-strict ones. */
  lemma GetStrOpEscapesNonStrict()
    ensures GetStrOp(Le) == Some("\\<=") && GetStrOp(Ge) == Some("\\>=")
  {
    FirstMatchAt(OperationNames, Le, 7);
    FirstMatchAt(OperationNames, Ge, 8);
  }

  /** The equality operators are printed as written. */
  lemma GetStrOpEquals()
    ensures GetStrOp(Ee) == Some("==")
  {
    FirstMatchAt(OperationNames, Ee, 9);
  }

  lemma GetStrOpNotEquals()
    ensures GetStrOp(Ne) == Some("!=")
  {
    FirstMatchAt(OperationNames, Ne, 10);
  }

  /** The data-type names are the keywords the lexer recognises for them. */
  lemma GetStrConstRows()
    ensures GetStrConst(ConstShort) == Some("short") && GetStrConst(ConstInt) == Some("int")
    ensures GetStrConst(ConstLong) == Some("long") && GetStrConst(ConstDouble) == Some("double")
    ensures GetStrConst(ConstChar) == Some("char")
  {
    assert FirstMatch(ConstNames, ConstShort) == Some(ConstNames[0].0) by { FirstMatchAt(ConstNames, ConstShort, 0); }
    assert FirstMatch(ConstNames, ConstInt) == Some(ConstNames[1].0) by { FirstMatchAt(ConstNames, ConstInt, 1); }
    assert FirstMatch(ConstNames, ConstLong) == Some(ConstNames[2].0) by { FirstMatchAt(ConstNames, ConstLong, 2); }
    assert FirstMatch(ConstNames, ConstDouble) == Some(ConstNames[3].0) by { FirstMatchAt(ConstNames, ConstDouble, 3); }
    assert FirstMatch(ConstNames, ConstChar) == Some(ConstNames[4].0) by { FirstMatchAt(ConstNames, ConstChar, 4); }
  }
}
