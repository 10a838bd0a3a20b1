/**
  State history table by table: with each table's rule for dropping a
  modification and its way to serialize a row, when a block's delta takes a
  consumer to the right rows.
 */
module HistoryTables {
  import opened ArenaTypes
  import opened TableSpec
  import opened RowHistory
  import opened BlobSafety
  import opened TableOps
  import opened Refinement
  import opened Runs
  import opened Wire
  import opened HistoryDelta
  import Rule = HistoryRules

  /** The delta takes a consumer from the rows before the session to the rows now. */
  ghost predicate Arrives(sc: Schema, c: Config, rules: Rules)
    requires Inv(sc, c) && c.t.undo.Push?
  {
    DeltaTurnsOldIntoNew(sc, c, rules);
    Apply(ViewOf(sc, AbsOf(sc, c).saved.top, rules.was), DeltaOf(sc, c.t, rules))
        == ViewOf(sc, AbsOf(sc, c).cur, rules.now)
  }

  lemma ArrivesIf(sc: Schema, c: Config, rules: Rules)
    requires Inv(sc, c) && c.t.undo.Push?
    ensures Arrives(sc, c, rules) <==> DropsOnlySame(sc, c.t, rules) && KeepsUntouched(sc, c.t, rules)
  {
    hide Apply, ViewOf, DeltaOf, BlobStack, PatchesOK, RowStack, AbsOf, SaysAllChanges, DropsOnlySame, KeepsUntouched;
    DeltaTurnsOldIntoNew(sc, c, rules);
    SaysAllIf(sc, c.t, rules);
  }

  /** Of a table whose rows show nothing of other tables: exactly when no change of a serialized row is dropped. */
  lemma OwnArrives(sc: Schema, c: Config, material: (Row, Row) -> bool, ser: (Row, Blobs) -> Bytes)
    requires Inv(sc, c) && c.t.undo.Push?
    ensures Arrives(sc, c, OwnRules(material, ser)) <==> DropsOnlySame(sc, c.t, OwnRules(material, ser))
  {
    hide Arrives, Inv, DropsOnlySame;
    ArrivesIf(sc, c, OwnRules(material, ser));
  }

  /** A row the session changed and that is still there. */
  ghost predicate Changed(t: Tab, id: int)
  {
    t.undo.Push? && id in t.undo.top.modified && id in t.rows
  }

  ghost function Was(t: Tab, id: int): Row
    requires Changed(t, id)
  {
    t.undo.top.modified[id]
  }

  // ----- tables that emit every modification --------------------------------

  /** Accounts, contract rows without their table's name, permissions, links, usage and the rest: always right. */
  lemma EveryChangeArrives(sc: Schema, c: Config, ser: (Row, Blobs) -> Bytes)
    requires Inv(sc, c) && c.t.undo.Push?
    ensures Arrives(sc, c, OwnRules((o, r) => true, ser))
  {
    hide Arrives, Inv;
    OwnArrives(sc, c, (o, r) => true, ser);
  }

  // ----- contract tables ----------------------------------------------------

  function TableRowRules(dec: Row -> Rule.TableRow): Rules
  {
    OwnRules((o, r) => Rule.TableMaterial(dec(o), dec(r)), (row, blobs) => Rule.SerTable(dec(row)))
  }

  predicate SameName(o: Rule.TableRow, r: Rule.TableRow)
  {
    o.code == r.code && o.scope == r.scope && o.table == r.table
  }

  /** Contract tables: right exactly when no table keeps its payer and changes its name. */
  lemma TablesArrive(sc: Schema, c: Config, dec: Row -> Rule.TableRow)
    requires Inv(sc, c) && c.t.undo.Push? && forall row :: Rule.TableFits(dec(row))
    ensures Arrives(sc, c, TableRowRules(dec)) <==>
            forall id :: Changed(c.t, id) && dec(Was(c.t, id)).payer == dec(c.t.rows[id]).payer ==>
                SameName(dec(Was(c.t, id)), dec(c.t.rows[id]))
  {
    hide Arrives, Inv, Rule.SerTable, Contents;
    OwnArrives(sc, c, TableRowRules(dec).material, TableRowRules(dec).was);
    forall id | Changed(c.t, id)
      ensures Rule.SerTable(dec(Was(c.t, id))) == Rule.SerTable(dec(c.t.rows[id])) <==>
              !Rule.TableMaterial(dec(Was(c.t, id)), dec(c.t.rows[id]))
                  && SameName(dec(Was(c.t, id)), dec(c.t.rows[id]))
    {
      Rule.TableExact(dec(Was(c.t, id)), dec(c.t.rows[id]));
    }
  }

  // ----- account limits -----------------------------------------------------

  function LimitsRules(dec: Row -> Rule.LimitsRow): Rules
  {
    OwnRules((o, r) => Rule.LimitsMaterial(dec(o), dec(r)), (row, blobs) => Rule.SerLimits(dec(row)))
  }

  /** Account limits: right exactly when no row keeps its limits and changes its owner. */
  lemma LimitsArrive(sc: Schema, c: Config, dec: Row -> Rule.LimitsRow)
    requires Inv(sc, c) && c.t.undo.Push? && forall row :: Rule.LimitsFit(dec(row))
    ensures Arrives(sc, c, LimitsRules(dec)) <==>
            forall id :: Changed(c.t, id) && !Rule.LimitsMaterial(dec(Was(c.t, id)), dec(c.t.rows[id])) ==>
                dec(Was(c.t, id)).owner == dec(c.t.rows[id]).owner
  {
    hide Arrives, Inv, Rule.SerLimits, Contents, Rule.LimitsMaterial;
    OwnArrives(sc, c, LimitsRules(dec).material, LimitsRules(dec).was);
    forall id | Changed(c.t, id)
      ensures Rule.SerLimits(dec(Was(c.t, id))) == Rule.SerLimits(dec(c.t.rows[id])) <==>
              !Rule.LimitsMaterial(dec(Was(c.t, id)), dec(c.t.rows[id]))
                  && dec(Was(c.t, id)).owner == dec(c.t.rows[id]).owner
    {
      Rule.LimitsExact(dec(Was(c.t, id)), dec(c.t.rows[id]));
    }
  }

  // ----- state, configuration, metadata -------------------------------------

  /** The resource state: always right, though pending use is not compared. */
  lemma StateArrives(sc: Schema, c: Config, dec: Row -> Rule.StateRow)
    requires Inv(sc, c) && c.t.undo.Push? && forall row :: Rule.StateFits(dec(row))
    ensures Arrives(sc, c, OwnRules((o, r) => Rule.StateMaterial(dec(o), dec(r)),
                                    (row, blobs) => Rule.SerState(dec(row))))
  {
    hide Arrives, Inv, Rule.SerState, Contents, Rule.StateMaterial;
    OwnArrives(sc, c, (o, r) => Rule.StateMaterial(dec(o), dec(r)), (row, blobs) => Rule.SerState(dec(row)));
    forall id | Changed(c.t, id) && !Rule.StateMaterial(dec(Was(c.t, id)), dec(c.t.rows[id]))
      ensures Rule.SerState(dec(Was(c.t, id))) == Rule.SerState(dec(c.t.rows[id]))
    {
      Rule.StateExact(dec(Was(c.t, id)), dec(c.t.rows[id]));
    }
  }

  /** The resource configuration: always right. */
  lemma ConfigArrives(sc: Schema, c: Config, dec: Row -> Rule.ConfigRow)
    requires Inv(sc, c) && c.t.undo.Push? && forall row :: Rule.ConfigFits(dec(row))
    ensures Arrives(sc, c, OwnRules((o, r) => Rule.ConfigMaterial(dec(o), dec(r)),
                                    (row, blobs) => Rule.SerConfig(dec(row))))
  {
    hide Arrives, Inv, Rule.SerConfig, Contents, Rule.ConfigMaterial;
    OwnArrives(sc, c, (o, r) => Rule.ConfigMaterial(dec(o), dec(r)), (row, blobs) => Rule.SerConfig(dec(row)));
    forall id | Changed(c.t, id) && !Rule.ConfigMaterial(dec(Was(c.t, id)), dec(c.t.rows[id]))
      ensures Rule.SerConfig(dec(Was(c.t, id))) == Rule.SerConfig(dec(c.t.rows[id]))
    {
      Rule.ConfigExact(dec(Was(c.t, id)), dec(c.t.rows[id]));
    }
  }

  /** Account metadata: always right, though sequence numbers are not compared. */
  lemma MetaArrives(sc: Schema, c: Config, dec: Row -> Rule.MetaRow)
    requires Inv(sc, c) && c.t.undo.Push? && forall row :: Rule.MetaFits(dec(row))
    ensures Arrives(sc, c, OwnRules((o, r) => Rule.MetaMaterial(dec(o), dec(r)),
                                    (row, blobs) => Rule.SerMeta(dec(row))))
  {
    hide Arrives, Inv, Rule.SerMeta, Contents, Rule.MetaMaterial;
    OwnArrives(sc, c, (o, r) => Rule.MetaMaterial(dec(o), dec(r)), (row, blobs) => Rule.SerMeta(dec(row)));
    forall id | Changed(c.t, id) && !Rule.MetaMaterial(dec(Was(c.t, id)), dec(c.t.rows[id]))
      ensures Rule.SerMeta(dec(Was(c.t, id))) == Rule.SerMeta(dec(c.t.rows[id]))
    {
      Rule.MetaExact(dec(Was(c.t, id)), dec(c.t.rows[id]));
    }
  }

  // ----- code ---------------------------------------------------------------

  /** No modification of a code row is emitted. */
  function CodeRules(dec: Row -> Rule.CodeRow): Rules
  {
    OwnRules((o, r) => false, (row, blobs) => Rule.SerCode(dec(row), blobs))
  }

  /**
    Code: right exactly when every changed row keeps its machine, its hash and its
    code, as a change of the reference count does.
   */
  lemma CodeArrives(sc: Schema, c: Config, dec: Row -> Rule.CodeRow)
    requires Inv(sc, c) && c.t.undo.Push? && forall row :: Rule.CodeFits(dec(row))
    ensures Arrives(sc, c, CodeRules(dec)) <==>
            forall id :: Changed(c.t, id) ==>
              Rule.SameCodeRow(dec(Was(c.t, id)), Contents(c.t.blobs, sc.refs(Was(c.t, id))),
                               dec(c.t.rows[id]), Contents(c.t.blobs, sc.refs(c.t.rows[id])))
  {
    hide Arrives, Inv, Rule.SerCode, Contents, Rule.SameCodeRow;
    OwnArrives(sc, c, CodeRules(dec).material, CodeRules(dec).was);
    forall id | Changed(c.t, id)
      ensures var o, r := Was(c.t, id), c.t.rows[id];
              var before, after := Contents(c.t.blobs, sc.refs(o)), Contents(c.t.blobs, sc.refs(r));
              Rule.SerCode(dec(o), before) == Rule.SerCode(dec(r), after) <==>
                  Rule.SameCodeRow(dec(o), before, dec(r), after)
    {
      var o, r := Was(c.t, id), c.t.rows[id];
      Rule.CodeRowExact(dec(o), Contents(c.t.blobs, sc.refs(o)), dec(r), Contents(c.t.blobs, sc.refs(r)));
    }
  }

  /**
    Over every block: right exactly when every code row that is there before and after
    it has the same machine, hash and code.
   */
  lemma CodeBlock(sc: Schema, c: Config, ops: seq<Op>, dec: Row -> Rule.CodeRow)
    requires Inv(sc, c) && Block(sc, c, ops) && forall row :: Rule.CodeFits(dec(row))
    ensures var after := AfterBlock(sc, c, ops);
            && Inv(sc, after) && after.t.undo.Push?
            && (Arrives(sc, after, CodeRules(dec)) <==> forall id :: id in c.t.rows && id in after.t.rows ==>
                SameCode(sc, c.t, after.t, dec, id))
  {
    hide Arrives, BlobStack, PatchesOK, RowStack, Restore, AfterBlock, Block, Contents, Rule.SameCodeRow;
    var after := AfterBlock(sc, c, ops);
    BlockKeepsBytes(sc, c, ops);
    CodeArrives(sc, after, dec);
    forall id | id in c.t.rows && id in after.t.rows
      ensures Changed(after.t, id) ==> Was(after.t, id) == c.t.rows[id]
      ensures !Changed(after.t, id) ==> after.t.rows[id] == c.t.rows[id] && SameCode(sc, c.t, after.t, dec, id)
    {
      InBoth(sc, after.t, id);
      if !Changed(after.t, id) {
        SameToItself(dec(c.t.rows[id]), Contents(c.t.blobs, sc.refs(c.t.rows[id])));
      }
    }
    forall id | Changed(after.t, id) ensures id in c.t.rows {
      RestoredAt(after.t.undo.top, after.t.rows, id);
    }
  }

  ghost predicate SameCode(sc: Schema, was: Tab, now: Tab, dec: Row -> Rule.CodeRow, id: int)
    requires id in was.rows && id in now.rows
  {
    Rule.SameCodeRow(dec(was.rows[id]), Contents(was.blobs, sc.refs(was.rows[id])), dec(now.rows[id]),
                     Contents(now.blobs, sc.refs(now.rows[id])))
  }

  lemma SameToItself(row: Rule.CodeRow, blobs: Blobs)
    ensures Rule.SameCodeRow(row, blobs, row, blobs)
  {
  }

  /** A row that is there before and after a session was changed from what it was, or is what it was. */
  lemma InBoth(sc: Schema, t: Tab, id: int)
    requires RowInv(sc, t) && t.undo.Push? && id in t.rows && id in Restore(t.undo.top, t.rows)
    ensures Restore(t.undo.top, t.rows)[id] == if Changed(t, id) then Was(t, id) else t.rows[id]
  {
    hide Restore, KeysUnique, Lists;
    RestoredAt(t.undo.top, t.rows, id);
  }

  // A code row whose code is one byte, and a block that replaces it.

  function ByteCode(): Schema
  {
    Schema(2, [], (r: Row) => Spanned(r))
  }

  function Spanned(r: Row): multiset<BlobRef>
  {
    if |r.data| == 2 && r.data[1] > 0 then multiset{BlobRef(r.data[0], r.data[1])} else multiset{}
  }

  function DecodeCode(r: Row): (code: Rule.CodeRow)
    ensures Rule.CodeFits(code)
  {
    Rule.CodeRow(0, 0, seq(Rule.HASH_SIZE, i => 0),
                 if |r.data| == 2 then BlobRef(r.data[0], r.data[1]) else BlobRef(0, 0), 1)
  }

  const STORED_CODE := Tab(1, map[0 := Row(0, [0, 1])], [1], Bottom, 0, [0], [], [], 0)
  const REPLACES_CODE := [AllocOp([2]), ModifyOp(0, Row(0, [1, 1]))]

  /** The code was stored by a create, as an import does. */
  lemma CodeStored()
    ensures var sc, c := ByteCode(), Config(EmptyTab(), multiset{});
            && Inv(sc, c) && Legal(sc, c, [AllocOp([1]), EmplaceOp(Row(0, [0, 1]))])
            && Run(sc, c, [AllocOp([1]), EmplaceOp(Row(0, [0, 1]))]) == Config(STORED_CODE, multiset{})
  {
    hide Inv, Legal, Run, AbsOf, AbsStep, RefsOf;
    var sc, c := ByteCode(), Config(EmptyTab(), multiset{});
    var c1 := Config(EmptyTab().(blobs := [1]), multiset{BlobRef(0, 1)});
    EmptyInv(sc);
    assert Enabled(sc, c, AllocOp([1])) && Step(sc, c, AllocOp([1])) == c1;
    StepRefines(sc, c, AllocOp([1]));
    assert Enabled(sc, c1, EmplaceOp(Row(0, [0, 1])));
    StepRefines(sc, c1, EmplaceOp(Row(0, [0, 1])));
    assert Step(sc, c1, EmplaceOp(Row(0, [0, 1]))) == Config(STORED_CODE, multiset{});
    TwoSteps(sc, c, AllocOp([1]), EmplaceOp(Row(0, [0, 1])));
  }

  lemma TwoSteps(sc: Schema, c: Config, a: Op, b: Op)
    requires Inv(sc, c) && Enabled(sc, c, a) && Inv(sc, Step(sc, c, a)) && Enabled(sc, Step(sc, c, a), b)
    ensures Legal(sc, c, [a, b]) && Run(sc, c, [a, b]) == Step(sc, Step(sc, c, a), b)
  {
    hide Inv, Enabled, Step, AbsOf, AbsStep;
    var c1 := Step(sc, c, a);
    StepRefines(sc, c, a);
    StepRefines(sc, c1, b);
    assert [a, b][1..] == [b] && [b][1..] == [];
    assert Legal(sc, Step(sc, c1, b), []) && Run(sc, Step(sc, c1, b), []) == Step(sc, c1, b);
    assert Legal(sc, c1, [b]) && Run(sc, c1, [b]) == Step(sc, c1, b);
  }

  const IN_BLOCK := STORED_CODE.(undo := Push(Session(map[], map[], [], [], 1, 1, [], []), Bottom), revision := 1)

  lemma CodeReplaced()
    ensures var sc, c := ByteCode(), Config(IN_BLOCK, multiset{});
            Inv(sc, c) ==>
              && Legal(sc, c, REPLACES_CODE) && StaysOpen(sc, c, REPLACES_CODE, 1)
              && var t := Run(sc, c, REPLACES_CODE).t; t.rows == map[0 := Row(0, [1, 1])] && t.blobs == [1, 2]
  {
    hide Inv, Legal, Run, AbsOf, AbsStep, RefsOf, StaysOpen;
    var sc, c := ByteCode(), Config(IN_BLOCK, multiset{});
    if Inv(sc, c) {
      var c2 := Config(c.t.(blobs := [1, 2]), multiset{BlobRef(1, 1)});
      assert Enabled(sc, c, AllocOp([2])) && Step(sc, c, AllocOp([2])) == c2;
      StepRefines(sc, c, AllocOp([2]));
      assert Enabled(sc, c2, ModifyOp(0, Row(0, [1, 1])));
      TwoSteps(sc, c, AllocOp([2]), ModifyOp(0, Row(0, [1, 1])));
      TwoStayOpen(sc, c, AllocOp([2]), ModifyOp(0, Row(0, [1, 1])));
      assert c2.t.rows[0 := Row(0, [1, 1])] == map[0 := Row(0, [1, 1])];
    }
  }

  /** The import of other code for a stored row: the delta of that block leaves a consumer with the old code. */
  lemma ReplacedCodeIsMissed()
    ensures var sc, c := ByteCode(), Config(STORED_CODE, multiset{});
            && Inv(sc, c) && Block(sc, c, REPLACES_CODE)
            && Inv(sc, AfterBlock(sc, c, REPLACES_CODE)) && AfterBlock(sc, c, REPLACES_CODE).t.undo.Push?
            && !Arrives(sc, AfterBlock(sc, c, REPLACES_CODE), CodeRules(DecodeCode))
  {
    hide Inv, Legal, Run, AbsOf, AbsStep, RefsOf, Arrives, StaysOpen, SameCode;
    var sc, c := ByteCode(), Config(STORED_CODE, multiset{});
    CodeStored();
    RunRefines(sc, Config(EmptyTab(), multiset{}), [AllocOp([1]), EmplaceOp(Row(0, [0, 1]))]);
    StepRefines(sc, c, StartOp);
    assert Step(sc, c, StartOp) == Config(IN_BLOCK, multiset{});
    CodeReplaced();
    CodeBlock(sc, c, REPLACES_CODE, DecodeCode);
    OtherCode(AfterBlock(sc, c, REPLACES_CODE).t);
  }

  lemma OtherCode(t: Tab)
    requires t.rows == map[0 := Row(0, [1, 1])] && t.blobs == [1, 2]
    ensures !SameCode(ByteCode(), STORED_CODE, t, DecodeCode, 0)
  {
    assert Read(STORED_CODE.blobs, BlobRef(0, 1)) == [1] && Read(t.blobs, BlobRef(1, 1)) == [2];
  }

  lemma TwoStayOpen(sc: Schema, c: Config, a: Op, b: Op)
    requires Inv(sc, c) && Enabled(sc, c, a) && Inv(sc, Step(sc, c, a)) && Enabled(sc, Step(sc, c, a), b)
    requires a.AllocOp? && b.ModifyOp? && Legal(sc, c, [a, b])
    ensures StaysOpen(sc, c, [a, b], 1)
  {
    hide Inv, Enabled, Step, AbsOf, AbsStep;
    StepRefines(sc, c, a);
    StepRefines(sc, Step(sc, c, a), b);
    assert [a, b][1..] == [b] && [b][1..] == [];
    assert StaysOpen(sc, Step(sc, Step(sc, c, a), b), [], 1);
    assert StaysOpen(sc, Step(sc, c, a), [b], 1);
  }

  // ----- rows that show names of other rows ---------------------------------

  function NamesIn<N>(rows: Rows, name: Row -> N): map<int, N>
  {
    map id | id in rows :: name(rows[id])
  }

  /** The names a delta resolves tables by: of the tables there are, and of those the session removed. */
  function NamesNow<N>(s: Session, rows: Rows, name: Row -> N): map<int, N>
  {
    NamesIn(s.removed, name) + NamesIn(rows, name)
  }

  /** The row a session changed, as it was last seen. */
  ghost function Latest(s: Session, rows: Rows, id: int): Row
    requires id in rows || id in s.removed
  {
    if id in rows then rows[id] else s.removed[id]
  }

  /**
    Every table there was when the session started is still resolved to its name, even
    a removed one, exactly when none changed its name.
   */
  lemma NamesKept<N(!new)>(sc: Schema, t: Tab, name: Row -> N)
    requires RowInv(sc, t) && t.undo.Push?
    ensures (forall id :: id in Restore(t.undo.top, t.rows) ==>
               id in NamesNow(t.undo.top, t.rows, name)
                   && NamesNow(t.undo.top, t.rows, name)[id] == NamesIn(Restore(t.undo.top, t.rows), name)[id])
            <==> forall id :: id in t.undo.top.modified ==>
                (id in t.rows || id in t.undo.top.removed)
                    && name(t.undo.top.modified[id]) == name(Latest(t.undo.top, t.rows, id))
  {
    hide Restore, KeysUnique, Lists;
    var s, rows := t.undo.top, t.rows;
    forall id: int
      ensures id in Restore(s, rows) <==> id in s.modified || id in s.removed || (id in rows && id < s.oldNextId)
      ensures id in s.modified ==> Restore(s, rows)[id] == s.modified[id]
      ensures id !in s.modified && id in s.removed ==> Restore(s, rows)[id] == s.removed[id]
      ensures id !in s.modified && id !in s.removed && id in rows && id < s.oldNextId ==>
              Restore(s, rows)[id] == rows[id]
    {
      RestoredAt(s, rows, id);
    }
  }

  /** The name a reference shows: that of the row it leads to, or `none`. */
  function NameAt<N>(names: map<int, N>, ref: Option<int>, none: N): N
  {
    if ref.Some? && ref.value in names then names[ref.value] else none
  }

  /** Rows that are serialized with the name of a row they refer to. */
  datatype Naming<!N> = Naming(ref: Row -> Option<int>, name: Row -> N, none: N, ser: (Row, Blobs, N) -> Bytes)

  /** Every modification of such rows is emitted. */
  function NamedRules<N>(nm: Naming<N>, before: map<int, N>, now: map<int, N>): Rules
  {
    Rules((o, r) => true,
          (row, blobs) => nm.ser(row, blobs, NameAt(before, nm.ref(row), nm.none)),
          (row, blobs) => nm.ser(row, blobs, NameAt(now, nm.ref(row), nm.none)))
  }

  /** Different names give different bytes. */
  ghost predicate Shows<N(!new)>(nm: Naming<N>)
  {
    forall row, blobs, x, y :: nm.ser(row, blobs, x) == nm.ser(row, blobs, y) ==> x == y
  }

  /** The row was there when the session started, and the session did not touch it. */
  ghost predicate Untouched(t: Tab, id: int)
  {
    t.undo.Push? && id in t.rows && id < t.undo.top.oldNextId && id !in t.undo.top.modified
  }

  /** Every untouched row shows the same name before and now. */
  ghost predicate SameNames<N(!new)>(t: Tab, nm: Naming<N>, before: map<int, N>, now: map<int, N>)
  {
    forall id :: Untouched(t, id) ==>
                 NameAt(before, nm.ref(t.rows[id]), nm.none) == NameAt(now, nm.ref(t.rows[id]), nm.none)
  }

  /** Right if, and for serializers that show the name only if, untouched rows show the same name before and now. */
  lemma NamedExact<N(!new)>(sc: Schema, c: Config, nm: Naming<N>, before: map<int, N>, now: map<int, N>)
    requires Inv(sc, c) && c.t.undo.Push?
    ensures SameNames(c.t, nm, before, now) ==> Arrives(sc, c, NamedRules(nm, before, now))
    ensures Shows(nm) ==> (Arrives(sc, c, NamedRules(nm, before, now)) <==> SameNames(c.t, nm, before, now))
  {
    hide Arrives, Inv, Contents, NameAt;
    var rules := NamedRules(nm, before, now);
    ArrivesIf(sc, c, rules);
    assert DropsOnlySame(sc, c.t, rules);
    if Shows(nm) && KeepsUntouched(sc, c.t, rules) {
      forall id | Untouched(c.t, id)
        ensures NameAt(before, nm.ref(c.t.rows[id]), nm.none) == NameAt(now, nm.ref(c.t.rows[id]), nm.none)
      {
        var row := c.t.rows[id];
        var blobs := Contents(c.t.blobs, sc.refs(row));
        assert rules.was(row, blobs) == rules.now(row, blobs);
      }
    }
  }

  /**
    The removal of a row whose name is the same before and now carries the row as it
    was serialized when the session started.
   */
  lemma RemovedNamed<N(!new)>(sc: Schema, c: Config, nm: Naming<N>, before: map<int, N>, now: map<int, N>, id: int)
    requires Inv(sc, c) && c.t.undo.Push? && id in c.t.undo.top.removed && id !in c.t.undo.top.modified
    requires var row := c.t.undo.top.removed[id];
             NameAt(before, nm.ref(row), nm.none) == NameAt(now, nm.ref(row), nm.none)
    ensures var rules := NamedRules(nm, before, now);
            && Ordered(c.t.undo.top) && AbsOf(sc, c).saved.Push? && id in ViewOf(sc, AbsOf(sc, c).saved.top, rules.was)
            && LastOn(DeltaOf(sc, c.t, rules), id)
               == Some(Emit(id, false, ViewOf(sc, AbsOf(sc, c).saved.top, rules.was)[id]))
  {
    hide BlobStack, PatchesOK, RowStack, Contents, Restore, NameAt, LastOn, DeltaOf, Saved, Observe, Named;
    RemovedAsAtStart(sc, c, NamedRules(nm, before, now), id);
    StartRows(sc, c);
    RestoredAt(c.t.undo.top, c.t.rows, id);
  }

  // ----- contract rows ------------------------------------------------------

  /**
    The table a row refers to shows the name it showed when the session started:
    it has kept its name, even if it is gone; or there was none, and there is none
    now but perhaps one without a name.
   */
  ghost predicate TableKept<N(!new)>(tables: Tab, nm: Naming<N>, ref: Option<int>)
    requires tables.undo.Push?
  {
    var s, start := tables.undo.top, Restore(tables.undo.top, tables.rows);
    ref.Some? && (ref.value in tables.rows || ref.value in s.removed) ==>
      nm.name(Latest(s, tables.rows, ref.value)) == if ref.value in start then nm.name(start[ref.value]) else nm.none
  }

  /** What tables are called when the session started, and now. */
  ghost function TableRules<N(!new)>(tables: Tab, nm: Naming<N>): Rules
    requires tables.undo.Push?
  {
    NamedRules(nm, NamesIn(Restore(tables.undo.top, tables.rows), nm.name),
               NamesNow(tables.undo.top, tables.rows, nm.name))
  }

  lemma TableKeptIs<N(!new)>(scT: Schema, tables: Tab, nm: Naming<N>, ref: Option<int>)
    requires RowInv(scT, tables) && tables.undo.Push?
    ensures TableKept(tables, nm, ref) <==>
            NameAt(NamesIn(Restore(tables.undo.top, tables.rows), nm.name), ref, nm.none)
            == NameAt(NamesNow(tables.undo.top, tables.rows, nm.name), ref, nm.none)
  {
    hide Restore, KeysUnique, Lists;
    if ref.Some? {
      RestoredAt(tables.undo.top, tables.rows, ref.value);
    }
  }

  /**
    Contract rows and secondary index rows, serialized with their table's name
    and their value's bytes, whichever rows and tables the block removed: right
    exactly when the table of every untouched row shows the name it showed.
   */
  lemma NamedArrive<N(!new)>(scT: Schema, ct: Config, sc: Schema, c: Config, nm: Naming<N>)
    requires Inv(scT, ct) && Inv(sc, c) && c.t.undo.Push? && ct.t.undo.Push? && Shows(nm)
    ensures Arrives(sc, c, TableRules(ct.t, nm)) <==>
            forall id :: Untouched(c.t, id) ==> TableKept(ct.t, nm, nm.ref(c.t.rows[id]))
  {
    hide Arrives, BlobStack, PatchesOK, RowStack, NamesIn, NamesNow, Restore, NamedRules, NameAt, TableKept, Shows;
    var before, now := NamesIn(Restore(ct.t.undo.top, ct.t.rows), nm.name), NamesNow(ct.t.undo.top, ct.t.rows, nm.name);
    NamedExact(sc, c, nm, before, now);
    forall id | Untouched(c.t, id)
      ensures TableKept(ct.t, nm, nm.ref(c.t.rows[id])) <==>
              NameAt(before, nm.ref(c.t.rows[id]), nm.none) == NameAt(now, nm.ref(c.t.rows[id]), nm.none)
    {
      TableKeptIs(scT, ct.t, nm, nm.ref(c.t.rows[id]));
    }
  }

  /** No table changed its name in the session. */
  ghost predicate NamesStay<N(!new)>(tables: Tab, name: Row -> N)
  {
    tables.undo.Push? &&
    forall id :: id in tables.undo.top.modified ==>
      && (id in tables.rows || id in tables.undo.top.removed)
      && name(tables.undo.top.modified[id]) == name(Latest(tables.undo.top, tables.rows, id))
  }

  lemma StayKept<N(!new)>(scT: Schema, tables: Tab, nm: Naming<N>, id: int)
    requires RowInv(scT, tables) && NamesStay(tables, nm.name) && id in Restore(tables.undo.top, tables.rows)
    ensures TableKept(tables, nm, Some(id))
  {
    hide Restore, KeysUnique, Lists;
    RestoredAt(tables.undo.top, tables.rows, id);
  }

  /**
    The removal of a row whose table was there at the start carries the row as it
    was serialized before the block, with its value and its table's name, though
    both may be gone, as long as no table changes its name.
   */
  lemma RemovedWithName<N(!new)>(scT: Schema, ct: Config, sc: Schema, c: Config, nm: Naming<N>, id: int)
    requires Inv(scT, ct) && Inv(sc, c) && c.t.undo.Push? && NamesStay(ct.t, nm.name)
    requires id in c.t.undo.top.removed && id !in c.t.undo.top.modified
    requires var ref := nm.ref(c.t.undo.top.removed[id]); ref.Some? && ref.value in Restore(ct.t.undo.top, ct.t.rows)
    ensures var rules := TableRules(ct.t, nm);
            && Ordered(c.t.undo.top) && AbsOf(sc, c).saved.Push? && id in ViewOf(sc, AbsOf(sc, c).saved.top, rules.was)
            && LastOn(DeltaOf(sc, c.t, rules), id)
               == Some(Emit(id, false, ViewOf(sc, AbsOf(sc, c).saved.top, rules.was)[id]))
  {
    hide BlobStack, PatchesOK, RowStack, NamesIn, NamesNow, Restore, NamedRules, NameAt, LastOn, DeltaOf, AbsOf, ViewOf,
         TableKept;
    var ref := nm.ref(c.t.undo.top.removed[id]);
    StayKept(scT, ct.t, nm, ref.value);
    TableKeptIs(scT, ct.t, nm, ref);
    RemovedNamed(sc, c, nm, NamesIn(Restore(ct.t.undo.top, ct.t.rows), nm.name),
                 NamesNow(ct.t.undo.top, ct.t.rows, nm.name), id);
  }

  /** So the delta is right when every row belongs to a table that was there and no table changes its name. */
  lemma NamedStayRight<N(!new)>(scT: Schema, ct: Config, sc: Schema, c: Config, nm: Naming<N>)
    requires Inv(scT, ct) && Inv(sc, c) && c.t.undo.Push? && NamesStay(ct.t, nm.name)
    requires forall id :: Untouched(c.t, id) ==>
               var ref := nm.ref(c.t.rows[id]); ref.Some? && ref.value in Restore(ct.t.undo.top, ct.t.rows)
    ensures Arrives(sc, c, TableRules(ct.t, nm))
  {
    hide Arrives, BlobStack, PatchesOK, RowStack, NamesIn, NamesNow, Restore, NamedRules, NameAt, TableKept;
    var before, now := NamesIn(Restore(ct.t.undo.top, ct.t.rows), nm.name), NamesNow(ct.t.undo.top, ct.t.rows, nm.name);
    NamedExact(sc, c, nm, before, now);
    forall id | Untouched(c.t, id)
      ensures NameAt(before, nm.ref(c.t.rows[id]), nm.none) == NameAt(now, nm.ref(c.t.rows[id]), nm.none)
    {
      var ref := nm.ref(c.t.rows[id]);
      StayKept(scT, ct.t, nm, ref.value);
      TableKeptIs(scT, ct.t, nm, ref);
    }
  }

  // ----- permissions --------------------------------------------------------

  /** Keys, other than row ids, are unique. */
  ghost predicate UniqueKeys(rows: Rows, key: Row -> int)
  {
    forall a, b :: a in rows && b in rows && key(rows[a]) == key(rows[b]) ==> a == b
  }

  ghost function KeysOf(rows: Rows, key: Row -> int): set<int>
  {
    set id | id in rows :: key(rows[id])
  }

  ghost function NameOf<N>(rows: Rows, key: Row -> int, name: Row -> N, k: int): N
    requires k in KeysOf(rows, key)
  {
    var id :| id in rows && key(rows[id]) == k; name(rows[id])
  }

  /** Rows' names by their keys. */
  ghost function KeyedNames<N>(rows: Rows, key: Row -> int, name: Row -> N): map<int, N>
  {
    map k | k in KeysOf(rows, key) :: NameOf(rows, key, name, k)
  }

  lemma KeyedAt<N(!new)>(rows: Rows, key: Row -> int, name: Row -> N, id: int)
    requires UniqueKeys(rows, key) && id in rows
    ensures key(rows[id]) in KeyedNames(rows, key, name) && KeyedNames(rows, key, name)[key(rows[id])] == name(rows[id])
  {
    var k := key(rows[id]);
    assert k in KeysOf(rows, key);
    var other :| other in rows && key(rows[other]) == k && NameOf(rows, key, name, k) == name(rows[other]);
  }

  /** The names a delta resolves parents by: of the permissions there are, then of those the session removed. */
  ghost function KeyedNow<N>(s: Session, rows: Rows, key: Row -> int, name: Row -> N): map<int, N>
  {
    KeyedNames(s.removed, key, name) + KeyedNames(rows, key, name)
  }

  lemma PartsUnique(a: Rows, b: Rows, key: Row -> int)
    requires UniqueKeys(a + b, key) && forall id :: id in a ==> id !in b
    ensures UniqueKeys(a, key) && UniqueKeys(b, key)
  {
    forall i, j | i in a && j in a && key(a[i]) == key(a[j]) ensures i == j {
      assert (a + b)[i] == a[i] && (a + b)[j] == a[j];
    }
    forall i, j | i in b && j in b && key(b[i]) == key(b[j]) ensures i == j {
      assert (a + b)[i] == b[i] && (a + b)[j] == b[j];
    }
  }

  lemma RemovedNotThere(sc: Schema, t: Tab)
    requires RowInv(sc, t) && t.undo.Push?
    ensures forall x :: x in t.undo.top.removed ==> x !in t.rows
  {
    hide KeysUnique, Lists;
  }

  /** Two permissions of the start, and of now and the removed ones, have different keys. */
  ghost predicate KeysUniqueInSession(t: Tab, key: Row -> int)
  {
    t.undo.Push? && UniqueKeys(Restore(t.undo.top, t.rows), key) && UniqueKeys(t.undo.top.removed + t.rows, key)
  }

  ghost function KeyedRules<N(!new)>(t: Tab, key: Row -> int, nm: Naming<N>): Rules
    requires t.undo.Push?
  {
    NamedRules(nm, KeyedNames(Restore(t.undo.top, t.rows), key, nm.name), KeyedNow(t.undo.top, t.rows, key, nm.name))
  }

  /**
    The parent with this key is called now what it was called at the start: what
    has the key now, live or else removed, has the name of what had it, or has no
    name where nothing had it; and where something had it, something has it.
   */
  ghost predicate ParentKept<N(!new)>(t: Tab, key: Row -> int, nm: Naming<N>, ref: Option<int>)
    requires t.undo.Push?
  {
    var all, start := t.undo.top.removed + t.rows, Restore(t.undo.top, t.rows);
    ref.Some? ==>
      && (forall a, b :: a in start && key(start[a]) == ref.value && b in all && key(all[b]) == ref.value ==>
                         nm.name(start[a]) == nm.name(all[b]))
      && (ref.value in KeysOf(start, key) && ref.value !in KeysOf(all, key) ==>
          NameOf(start, key, nm.name, ref.value) == nm.none)
      && (forall b :: b in all && key(all[b]) == ref.value && ref.value !in KeysOf(start, key) ==>
          nm.name(all[b]) == nm.none)
  }

  lemma KeyedSplit<N(!new)>(a: Rows, b: Rows, key: Row -> int, name: Row -> N, k: int)
    requires UniqueKeys(a + b, key) && forall id :: id in a ==> id !in b
    ensures k in KeysOf(a + b, key) <==> k in KeysOf(a, key) || k in KeysOf(b, key)
    ensures k in KeysOf(a + b, key) ==>
            NameOf(a + b, key, name, k) == (KeyedNames(a, key, name) + KeyedNames(b, key, name))[k]
  {
    var all := a + b;
    PartsUnique(a, b, key);
    if k in KeysOf(all, key) {
      var id :| id in all && key(all[id]) == k;
      KeyedAt(all, key, name, id);
      if id in b {
        KeyedAt(b, key, name, id);
      } else {
        KeyedAt(a, key, name, id);
        forall x | x in b ensures key(b[x]) != k {
          assert all[x] == b[x];
        }
      }
    }
    if k in KeysOf(a, key) {
      var id :| id in a && key(a[id]) == k;
      assert all[id] == a[id];
    }
    if k in KeysOf(b, key) {
      var id :| id in b && key(b[id]) == k;
      assert all[id] == b[id];
    }
  }

  lemma ParentKeptIs<N(!new)>(sc: Schema, t: Tab, key: Row -> int, nm: Naming<N>, ref: Option<int>)
    requires RowInv(sc, t) && KeysUniqueInSession(t, key)
    ensures ParentKept(t, key, nm, ref) <==>
            NameAt(KeyedNames(Restore(t.undo.top, t.rows), key, nm.name), ref, nm.none)
            == NameAt(KeyedNow(t.undo.top, t.rows, key, nm.name), ref, nm.none)
  {
    hide Restore, RowStack, NameOf;
    RemovedNotThere(sc, t);
    if ref.Some? {
      var s, start, all, k := t.undo.top, Restore(t.undo.top, t.rows), t.undo.top.removed + t.rows, ref.value;
      KeyedSplit(s.removed, t.rows, key, nm.name, k);
      if k in KeysOf(start, key) {
        var a :| a in start && key(start[a]) == k;
        KeyedAt(start, key, nm.name, a);
      }
      if k in KeysOf(all, key) {
        var b :| b in all && key(all[b]) == k;
        KeyedAt(all, key, nm.name, b);
      }
    }
  }

  /**
    Permissions, serialized with their authority and their parent's name, which
    is looked up by the parent's key, whichever permissions the block removed:
    right exactly when the parent of every untouched one is called what it was.
   */
  lemma PermissionsArrive<N(!new)>(sc: Schema, c: Config, key: Row -> int, nm: Naming<N>)
    requires Inv(sc, c) && KeysUniqueInSession(c.t, key) && Shows(nm)
    ensures Arrives(sc, c, KeyedRules(c.t, key, nm)) <==>
            forall id :: Untouched(c.t, id) ==> ParentKept(c.t, key, nm, nm.ref(c.t.rows[id]))
  {
    hide Arrives, BlobStack, PatchesOK, RowStack, KeyedNames, KeyedNow, Restore, NamedRules, NameAt, ParentKept, Shows,
         UniqueKeys;
    var before, now := KeyedNames(Restore(c.t.undo.top, c.t.rows), key, nm.name),
        KeyedNow(c.t.undo.top, c.t.rows, key, nm.name);
    NamedExact(sc, c, nm, before, now);
    forall id | Untouched(c.t, id)
      ensures ParentKept(c.t, key, nm, nm.ref(c.t.rows[id])) <==>
              NameAt(before, nm.ref(c.t.rows[id]), nm.none) == NameAt(now, nm.ref(c.t.rows[id]), nm.none)
    {
      ParentKeptIs(sc, c.t, key, nm, nm.ref(c.t.rows[id]));
    }
  }
}
