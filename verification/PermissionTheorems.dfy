/**
 Who may change a tool: the answers of toggle and delete, and what a row keeps over runs in which
 nobody entitled to change it acts on it.
 */
module PermissionTheorems {
  import opened Wrappers
  import opened Registry
  import opened ToolLab
  import opened RestartTheorems

  // An admin may change every row, anybody else the rows they own; nobody else owns the system's.
  predicate MayChange(user: User, row: Row) {
    user.isAdmin || (row.owner == user.sub && row.owner != SYSTEM)
  }

  predicate Compiles(row: Row, compile: Compiler) {
    compile(row.def, row.owner == SYSTEM).Some?
  }

  // A toggle is not found exactly without such a row and forbidden exactly to those who may not change
  // it, and then changes nothing.  Otherwise the row changes in `isActive` alone and no other row
  // changes; the call fails exactly when the tool is switched on and does not compile.
  lemma ToggleAnswers(lab: Lab, user: User, id: Id, active: bool, compile: Compiler)
    ensures var (after, reply) := Toggle(lab, user, id, active, compile);
            && (reply == NotFound <==> id !in lab.rows)
            && (reply == Forbidden <==> id in lab.rows && !MayChange(user, lab.rows[id]))
            && (if id !in lab.rows || !MayChange(user, lab.rows[id]) then after == lab
                else
                  && after.rows == lab.rows[id := lab.rows[id].(isActive := active)]
                  && reply == if active && !Compiles(lab.rows[id], compile) then Failed else Done(after.rows[id]))
  {
  }

  // A delete is a toggle off, and never fails.
  lemma DeleteAnswers(lab: Lab, user: User, id: Id, compile: Compiler)
    ensures var (after, reply) := Delete(lab, user, id);
            && (reply == NotFound <==> id !in lab.rows)
            && (reply == Forbidden <==> id in lab.rows && !MayChange(user, lab.rows[id]))
            && (id in lab.rows && MayChange(user, lab.rows[id]) ==> reply.Done?)
            && (after, reply) == Toggle(lab, user, id, false, compile)
  {
  }

  // The steps that may change the row: a toggle or delete of it by one who may, and the creation of a
  // new version by its owner.
  predicate MayTouch(op: Op, id: Id, row: Row) {
    match op
    case CreateOp(user, payload, _) => user.sub == row.owner && payload.name == row.name
    case ToggleOp(user, target, _) => target == id && MayChange(user, row)
    case DeleteOp(user, target) => target == id && MayChange(user, row)
    case RestartOp(_, _) => false
  }

  // The same row, save that a restart publishes the system's.
  predicate Kept(before: Row, after: Row) {
    after == before || (before.owner == SYSTEM && after == before.(isPublic := true))
  }

  // No step changes anything in a row but its flags, and only those steps switch it on or off.
  lemma {:induction false} StepKeepsRow(lab: Lab, op: Op, id: Id, compile: Compiler)
    requires id in lab.rows
    ensures var rows := Step(lab, op, compile).0.rows;
            && id in rows
            && Kept(lab.rows[id], rows[id].(isActive := lab.rows[id].isActive))
            && (!MayTouch(op, id, lab.rows[id]) ==> Kept(lab.rows[id], rows[id]))
  {
    match op
    case CreateOp(user, p, newId) =>
      var previous := TheActive(lab.rows, user.sub, p.name);
      if previous.Some? { assert previous.value in ActiveIds(lab.rows, user.sub, p.name); }
    case RestartOp(seeds, order) =>
      var published := PublishSystem(lab.rows);
      if SeedRows(published, seeds).Some? { SeedsEffect(published, seeds); }
    case _ =>
  }

  // Over a whole run: rows are never lost, their flags are all that ever changes, and steps by others
  // than those entitled leave the row as it was.
  lemma {:induction false} RunKeepsRow(lab: Lab, ops: seq<Op>, id: Id, compile: Compiler)
    requires id in lab.rows
    ensures var rows := RunOps(lab, ops, compile).rows;
            && id in rows
            && Kept(lab.rows[id], rows[id].(isActive := lab.rows[id].isActive))
            && ((forall op :: op in ops ==> !MayTouch(op, id, lab.rows[id])) ==> Kept(lab.rows[id], rows[id]))
    decreases |ops|
  {
    if ops != [] {
      var next := Step(lab, ops[0], compile).0;
      StepKeepsRow(lab, ops[0], id, compile);
      RunKeepsRow(next, ops[1..], id, compile);
      assert ops[0] in ops && forall op :: op in ops[1..] ==> op in ops;
      forall op ensures MayTouch(op, id, next.rows[id]) <==> MayTouch(op, id, lab.rows[id]) { }
    }
  }
}
