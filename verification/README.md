# Verified model of the ruprizzle migration engine

This project models the parts of ruprizzle where a mistake loses data or blocks a
deployment, and proves what they promise. Five parts are covered.

1. **Foreign-key cycles** (`Graph`, `Tarjan`, `Cycles`, `Defer`). The planner's recursive
   strongly-connected-components search over mutable maps and a stack returns exactly the
   classes of mutual reachability, for every finite graph. What it decides from them, which
   models and relations are on a cycle and whether a migration is bracketed with deferred
   foreign-key checks, is exact.
2. **Diff, plan, execution**. A database is a catalogue of tables, columns with their cells,
   and constraints recorded by column; every statement is a partial step on it, with a data
   half and a constraint half. A statement about a column can be refused by a constraint, and
   on MySQL it may bring a primary key along.
   - The diff and the data: `Ir`, `Diff`, `EnumDiff`, `Catalogue`, `Plan`, `Effects`, `Tidy`,
     `Phases`, `Trace`, `Refine`, `ColumnRun`.
   - The constraints: `Fates` (what column statements do to one constraint, and the primary
     keys they bring along), `Constraints`, `Tables`, `ConDiff`, `Outcome` (the constraints
     after each stage, in closed form), `ConRun`, `LateFks`.
   - Together: `Migrate`, `Conform`, `DropOrder`, `Drift`.
   - Concrete schemas: `Limits` (one model), `LostUnique`, `Linked` (two models).

   For a *tidy* pair of schemas (`Tidy.TidySchemas`, `ConDiff.TidyConstraints`) on a dialect
   that alters columns directly (Postgres, MySQL), the plan runs on the old catalogue if and
   only if the data is *ready* (`Refine.Ready`) and the constraints are (`Outcome.ConsReady`),
   and then ends in exactly the new schema's tables and columns, every surviving column
   holding the values it came from, row for row. Its constraints are those of
   `Outcome.Final`, and they are the new schema's if and only if the pair is
   `Conform.Complete`, a condition on the two schemas alone. For SQLite (`Sqlite`,
   `LiteAdds`, `LiteLimits`, `LiteLinks`) the same is shown of any sequence of added columns,
   with its table rebuilds.
3. **The runner** (`Runner`, `Consent`, `Splitter`, `SplitLaws`, `Lexis`, `Resplit`). Any
   number of Postgres deployers, any interleaving, with failing statements, crashes and stale
   pending lists; and the lexer that splits a script into statements, against a grammar of
   scripts that stands by itself.
4. **Relation resolution** (`Links`, `Sides`, `Build`, `Resolve`, `Through`, `Relations`,
   `Clashes`). Collecting, grouping and pairing relation fields, inventing join models, the
   back-pointers between fields and resolved relations, and exactly when a problem is
   reported.
5. **Edit distances** (`EditDistance`). The three dynamic programs all compute the least cost
   of an edit script, which is a metric.

Servers, clocks and authors of migrations are parameters: `Catalogue.World` holds which
values and old defaults can be converted to another type and how, the defaults and backfills
as evaluated for each row, the implicit values of MySQL, and which of several keys a foreign
key of Postgres was built on; `Sqlite.Lite` which defaults are constant,
`Splitter.Classes` the Unicode character classes (of which only `Classes.Sane` is assumed),
and a schedule in `Runner` decides who moves and what fails.

## What the proofs found

The code is modelled as it is. Where it falls short of what one would expect, the exact
condition is proved, with an example.

- A new model's indexes are never created: the diff reports a new model as one change, and
  `CREATE TABLE` has no indexes (`Limits.NewIndexIsMissing`). Every join model invented for an
  implicit many-to-many relation declares one.
- A block `@@id` of one field makes no primary key: its field is not an `@id`, and
  `CREATE TABLE` renders the block only if it is composite (`Limits.BlockKeyIsMissing`). A
  foreign key to it is refused unless some other key serves (`Linked.BlockKeyCannotBeReferred`).
- On MySQL, every change to the column of an `@id` field (its type, its default, its name, or
  a hint) restates `PRIMARY KEY`, and the server refuses a second key, even on an empty table
  (`Limits.KeyCannotBeRetyped`). It runs only where an early column drop has just taken the
  key along; then the key is made anew (`Conform.PrimaryEnds`). An added `@id` field is refused
  for the same reason (`Limits.KeyCannotBeAdded`), on SQLite too (`LiteLimits.IdCannotBeAdded`);
  Postgres adds the column without the key. The conditions are `Outcome.NoneBlocked` and
  `Outcome.KeysOnce` of `Outcome.ConsReady`, and `Sqlite.AddOk`.
- On MySQL, an optional relation that becomes required cannot be migrated: its default action
  turns from SET NULL to RESTRICT, so that the foreign key is redefined, but its column becomes
  NOT NULL before the old foreign key is dropped (`Linked.RequiredTooEarly`). MySQL also refuses
  a new foreign key with SET DEFAULT, or with SET NULL over a required column
  (`Outcome.FksCanJoin`).
- A field's `@unique` is only ever rendered by `CREATE TABLE`. Setting or clearing it is no
  change to the diff, and a field added to a model that is already there gets none
  (`Limits.UniqueIsNotMigrated`).
- A unique, index or foreign key that both schemas have is lost with its column, and nothing
  adds it again: when the column is dropped early, to make room for one that is renamed onto
  its name, or late, because a hint has given its field another column
  (`LostUnique.UniqueIsLost`, both ways). If next drops a unique that an early drop took along,
  the statement names a constraint that is gone and the migration fails
  (`LostUnique.LostUniqueCannotBeDropped`).
  `Conform.MigratedConforms` says exactly when a migration that runs ends in the new schema's
  constraints: no new model has an index or a block key of one field, no surviving field changes
  `@unique` and no added field has it, no unchanged index, unique or foreign key loses a column,
  and the primary key is carried on to the columns where next has it, or made anew there.
- A unique that is dropped and added again, because its definition moved in the file, cannot
  be dropped while an unchanged foreign key depends on it (`Linked.UniqueIsHeld`; the
  condition is in `Constraints.RunKeyDrops` and `Outcome.ConsReady`).
- A required column with a client-side default (`uuid7`, `cuid2`, …) cannot be added to a
  table with rows on Postgres: the planner takes it to have a default and emits no backfill.
  MySQL fills in the type's implicit value where it has one
  (`Limits.ClientDefaultNeedsEmptyTable`).
- A change of type on Postgres fails on values that cannot be cast, and, even on an empty
  table, when the old default cannot be: the type is changed before the default is
  (`Limits.OldDefaultInTheWay`).
- A field that changes its `@map` column and its definition in one migration, without a hint,
  is renamed twice, and the second rename fails (`Limits.MovedAndRetyped`).
- Tables are dropped in an order that compares two tables at a time. Sorted throughout, it
  puts every referencing table first where references go one way
  (`DropOrder.SortedInOrder`); but the comparison is not transitive, and a list whose
  neighbours are in order can start with a table that a later one refers to, which the server
  refuses to drop (`DropOrder.NeighboursAreNotEnough`).
- A schema compared with itself still has changes when a `@renamedFrom` hint names a column
  that the model still has (`Diff.SelfDiff`, `Limits.HintIsNeverDone`).
- The diff of enums does not compare the names of their types: its changes give next's types,
  in whatever order, if and only if no enum of both schemas is mapped to another name
  (`EnumDiff.EnumsMigrate`).
- On SQLite, adding a `@unique` column is rejected (`LiteLimits.UniqueCannotBeAdded`); a rebuild
  for one required column fails when a unique or foreign key of the target mentions a column
  that is added later in the same migration (`LiteLimits.UniqueTooEarly`,
  `LiteLinks.ForeignKeyTooEarly`), and when an `@id`
  turns into a composite key, because the rebuilt table then has both
  (`LiteLimits.KeyMadeTwice`); all are part of the condition of `LiteAdds.RunAddAll`. A rebuild
  also creates new indexes that the index phase then creates again, which fails exactly when the
  last rebuild could create them (`LiteAdds.NewIndexTwice`, `LiteAdds.LastRebuildDecides`,
  `LiteLimits.IndexCreatedTwice`).
- Two relation fields of one model that lead to the same other model are paired with each
  other, without any diagnostic (`Clashes.CrossedPair`). Resolved relations are coherent if
  and only if this does not happen (`Relations.ResolveRelations`).
- The two list fields of a many-to-many relation of a model with itself read the join table from
  the same end. If it is implicit, both have the first column as their own; the two entries
  mirror each other if and only if the models differ (`Resolve.MirroredUnlessSelf`). With a
  declared join model, both ends of an entry are the first foreign key, again if and only if
  the models are the same (`Build.BuildManyToMany`).
- Two implicit many-to-many relations can be given the same join model, also without a
  diagnostic; the second overwrites the first, and two entries share a foreign key
  (`Clashes.ClashGoesUnreported`). Without problems, entries and fields are in one-to-one
  correspondence if and only if the names do not clash (`Relations.ResolveRelations`), and
  they cannot if no model's name contains `_` or `To` (`Clashes.PlainNamesApart`).
- An unfinished block comment leaves its last character to be read as SQL
  (`SplitLaws.UnfinishedComment`); joining scripts behaves well exactly when every token is complete
  (`SplitLaws.JoiningJoins`).

## Model

| member | source | states |
|---|---|---|
| `Tarjan.TarjanScc` | crates/migrate/src/plan.rs:697-721 | the returned sets are exactly the classes of mutual reachability of the graph's vertices, edge targets that are no keys included, whatever order the keys come in |
| `Tarjan.Search.StrongConnect` | crates/migrate/src/plan.rs:724-768 | terminates (the unindexed vertices shrink), keeps the stack ordered by index and equal to `on_stack`, keeps every stack vertex able to reach an active one, and emits only whole classes |
| `Tarjan.Search.PopThrough` | crates/migrate/src/plan.rs:755-767 | the pop loop never meets an empty stack and removes exactly the vertices above and including the root |
| `Tarjan.SameSetIffMutual` | crates/migrate/src/plan.rs:697-768 | two vertices share a returned set if and only if each reaches the other |
| `Tarjan.PoppedIsClass` | crates/migrate/src/plan.rs:755-767 | when the lowlink is the own index, the popped vertices are one class, closed under edges together with what was emitted |
| `Cycles.FkGraph` | crates/migrate/src/plan.rs:654-667 | the graph has an edge exactly where some relation leads, and every model is a key |
| `Cycles.FkCycles` | crates/migrate/src/plan.rs:671-694 | the kept components are pairwise disjoint classes that together hold exactly the vertices on a closed walk |
| `Cycles.DetectCycles` | crates/migrate/src/plan.rs:782-820 | a model is reported iff a non-empty closed walk passes through it; a relation name iff a relation of that name has a target that reaches its owner; the field set is exactly the owner fields and columns of such relations |
| `Defer.AffectsCycle` | crates/migrate/src/plan.rs:905-971 | true iff some change touches what the cycle information reports |
| `Defer.NeedsDefer` | crates/migrate/src/plan.rs:825-844 | the migration is bracketed iff the dialect can be and some change touches a foreign-key cycle of the graph itself |
| `Defer.CreationOrder` | crates/migrate/src/plan.rs:250-277 | models off every cycle can be listed so that each refers only to earlier or other models |
| `Defer.UnbracketedUpMigration` | crates/migrate/src/plan.rs:825-844 | without a bracket, the created models admit such an order, no added foreign key closes a cycle, and no change of a column is about one of a foreign key that does |
| `Defer.UnbracketedDownMigration` | crates/migrate/src/plan.rs:825-844 | without a bracket, and not on Postgres, the dropped models can be listed so that each goes before those it refers to, no dropped foreign key closes a cycle, and no column change is about one that does |
| `Diff.RenameHints` | crates/migrate/src/diff.rs:82-117 | pushes exactly the renames and alters of hinted fields, and records which fields were renamed and consumed |
| `Diff.DiffColumns` | crates/migrate/src/diff.rs:81-182 | the changes are exactly the emitted renames, alters, adds and drops of the two models, each once |
| `Diff.DiffIndexes` | crates/migrate/src/diff.rs:218-237 | creates exactly the definitions that are new and drops exactly the names of those that are gone |
| `Diff.DiffUniques` | crates/migrate/src/diff.rs:239-258 | the same for unique constraints |
| `Diff.DiffRelations` | crates/migrate/src/diff.rs:260-315 | drops and adds exactly the foreign keys that are gone, new or redefined; a redefined one is dropped and added; none is dropped with its table |
| `Diff.DiffEnums` | crates/migrate/src/diff.rs:18-54 | the changes are exactly the enums and variants that are new or gone, each once |
| `EnumDiff.EnumsMigrate` | crates/migrate/src/diff.rs:18-54 | applied to prev's enum types in whatever order, the changes give next's types, variant by variant, iff no enum of both is mapped to another name |
| `Diff.Diff` | crates/migrate/src/diff.rs:10-16 | the changes, to enums included, are exactly those that the pair of schemas calls for, each once when constraint names are distinct |
| `Diff.SelfDiff` | crates/migrate/src/diff.rs:81-117 | a schema compared with itself yields nothing iff no hint names a column the model still has |
| `Effects.RunPostgresAlter` | crates/dialect/src/postgres.rs:96-146 | the statements of one alter succeed or fail, on values or an old default that cannot be cast, on nulls or on a taken name, and leave one column, as a function of the two columns they concern |
| `Effects.RunMysqlAlter` | crates/dialect/src/mysql.rs:102-124 | what the single MODIFY or CHANGE does to the data: it restates the default and so only casts values, and for an `@id` field it makes a primary key, so the cells must be without NULL and repetition; whether a constraint refuses it is said by `Fates.StillFate` |
| `Effects.RunAdd` | crates/migrate/src/plan.rs:355-397 | adding, backfilling and tightening a column amounts to one add with, row by row, the backfilled, default or implicit values, and fails only for a taken name, a missing table, cells that cannot be those of the key that MySQL makes of an `@id`, or, on a table with rows, an unrendered default that the server does not supply |
| `Effects.RunPhase` | crates/migrate/src/plan.rs:113-147 | changes of one phase on separate columns run iff each can, and their result is described change by change and column by column |
| `Tidy.ApartEmitted` | crates/migrate/src/diff.rs:81-182 | on a tidy pair, two different changes of one kind never concern a common column |
| `Phases.ShadowedMeansWanted` | crates/migrate/src/plan.rs:401-406 | a drop is taken early exactly when another column is renamed onto its name |
| `Trace.BeforeRename` | crates/migrate/src/plan.rs:408-475 | when the renames begin, every source column is untouched and every target name is free, also where the old holder had to be dropped first |
| `Trace.AfterAlter` | crates/migrate/src/plan.rs:477-500 | after the alters, a continued column has next's definition over its converted old cells |
| `Refine.ContinuedArrives` | crates/migrate/src/diff.rs:82-182 | through all phases, a surviving column ends with next's definition and the cells of the column it came from |
| `Refine.TableMigrated` | crates/migrate/src/plan.rs:113-147 | after the column phases, a surviving table has exactly next's columns, with the type, nullability and default of their fields; the continued ones hold their old cells, the added ones the default or backfill of each row |
| `ColumnRun.RunColumns` | crates/migrate/src/plan.rs:125-128 | as far as the data is concerned, the four early column phases run when it is ready, which covers failing conversions, MySQL's implicit values and the cells of a key that MySQL makes anew |
| `Fates.RunHalves` | crates/migrate/src/plan.rs:113-147 | a run of column statements succeeds iff its data half and its constraint half do, and ends in what each of them leaves |
| `Fates.RunSplits` | crates/migrate/src/plan.rs:113-147 | the constraint half leaves every constraint to its own fate, is refused iff some constraint refuses, and brings along the primary keys that it would bring along without them |
| `Fates.StillFate` | crates/dialect/src/mysql.rs:102-124 | adds and alters that rename nothing leave a constraint as it is, or are refused by it: a primary key refuses a second one and NULL in its columns, and on MySQL a foreign key with SET NULL refuses NOT NULL |
| `Fates.RunGains` | crates/dialect/src/mysql.rs:102-124 | where there are no keys, a phase of alters or renames brings along exactly the keys of the `@id` fields it is about |
| `Fates.DropsFate` | crates/dialect/src/postgres.rs:88-94 | dropping columns refuses, loses, narrows (MySQL keeps the columns left of a key) or keeps each constraint, as a function of the set of columns dropped and, for refusals, their order |
| `Outcome.ColumnsFate` | crates/migrate/src/plan.rs:125-128 | the four early column phases refuse for a constraint iff it stands in the way of one of them, and otherwise do to it what the early drops and then all the renames at once would |
| `Outcome.ColumnsFared` | crates/migrate/src/plan.rs:125-128 | so they run iff no constraint stands in the way and no key is made anew twice, and leave what is carried over, and the keys made anew |
| `ColumnRun.StagedWasReady` | crates/migrate/src/plan.rs:125-128 | and only then |
| `Constraints.RunFkDrops` | crates/migrate/src/plan.rs:565-575 | dropping foreign keys of distinct names runs iff each is there, and removes exactly those |
| `Constraints.RunKeyDrops` | crates/migrate/src/plan.rs:514-548 | dropping indexes and uniques runs iff each is there (or was dropped with IF EXISTS) and no foreign key depends on what goes, and removes exactly those |
| `Constraints.HeldCons` | crates/migrate/src/plan.rs:514-548 | dropping keys one by one is refused iff dropping all of them at once is |
| `Constraints.RunKeyAdds` | crates/migrate/src/plan.rs:502-536 | adding indexes and uniques on existing columns adds exactly those, if all names are free and distinct, those of indexes and uniques of one table taken together |
| `Constraints.ManyToManyIsSilent` | crates/dialect/src/postgres.rs:195-214 | adding or dropping many-to-many relations, which have no foreign key of their own, does nothing |
| `Constraints.RunFkAdds` | crates/migrate/src/plan.rs:550-563 | adding foreign keys runs iff each has a key to refer to and its server allows what it does to its columns, and adds exactly those, with the columns, the target and the actions of their relations |
| `Tables.RunCreates` | crates/dialect/src/common.rs:598-636 | creating new tables builds each as its model says, with the primary key of its `@id` field or of a block with more than one, its fields' `@unique` and its uniques, and without indexes or foreign keys, and touches nothing else |
| `Tables.RunDropTables` | crates/migrate/src/plan.rs:279-314 | with checks on, the drops run iff every table that refers to another goes first, unless the drop cascades, and remove exactly those tables and the foreign keys that cascading takes along |
| `LateFks.LatePins` | crates/migrate/src/plan.rs:420-430 | only the foreign keys of tables that go can stand in the way of a late column drop |
| `LateFks.StayingRefers` | crates/migrate/src/plan.rs:130-137 | no foreign key of a table that stays refers to a table that goes |
| `ConRun.RunCons` | crates/migrate/src/plan.rs:130-135 | on what the column phases left, the six constraint phases run iff every drop finds its constraint, none is held by a foreign key, and every new foreign key finds its key and is allowed, as far as next's definitions of its columns go; what is left is given in closed form |
| `Migrate.PlanMigrates` | crates/migrate/src/plan.rs:113-147 | on a tidy pair, the whole plan, for whatever order of created and dropped tables, runs iff the data is ready and the constraints are, and ends in next's tables, columns, rows and values, with exactly the constraints of the closed form; both conditions are about the old catalogue and the diff |
| `Conform.MigratedConforms` | crates/migrate/src/diff.rs:56-80 | a migration that runs ends in next's catalogue, constraints included, iff the pair is complete: new models have no index and no block key of one field, and surviving ones keep their uniques, definitions, primary key and foreign keys |
| `Conform.PrimaryEnds` | crates/dialect/src/mysql.rs:102-124 | the primary key ends on the heirs of its columns, narrowed by MySQL to those left, or, where MySQL restates an `@id`, on the column where next has it |
| `Conform.InlineEnds` | crates/migrate/src/diff.rs:184-215 | a `@unique` constraint is on a column afterwards iff the column was continued from one that had it |
| `Conform.InlineFits` | crates/migrate/src/diff.rs:184-215 | these are the ones that next asks for iff no continued field changes `@unique` and no added field carries it |
| `Conform.DefEnds` | crates/migrate/src/diff.rs:218-258 | an index or unique of next ends on its columns if it is new, and on what the column drops left of them if it is not |
| `Conform.KeptFkEnds` | crates/migrate/src/diff.rs:260-315 | an unchanged foreign key is there afterwards, with the columns, target and actions of next's relation, iff none of its own columns makes room for another |
| `Conform.NewFkEnds` | crates/dialect/src/common.rs:217-251 | a new or redefined foreign key is there afterwards, with the columns, target and actions of next's relation |
| `Migrate.DropsUnreferenced` | crates/migrate/src/plan.rs:130-137 | when the table drops begin, no foreign key of a table that stays refers to a table that goes |
| `Limits.ClientDefaultNeedsEmptyTable` | crates/migrate/src/plan.rs:359-397 | a tidy pair with its diff and a conforming catalogue with one row on which the plan for a required `uuid7` field fails, on Postgres, and on MySQL if the type has no implicit value |
| `Limits.OldDefaultInTheWay` | crates/dialect/src/postgres.rs:96-146 | a tidy pair with its diff and an empty table on which the plan fails that turns a text field with a text default into an integer with an integer default |
| `Limits.KeyCannotBeRetyped` | crates/dialect/src/mysql.rs:102-124 | a tidy pair with its diff and an empty table on which MySQL refuses to change the type of an `@id` |
| `Limits.KeyCannotBeAdded` | crates/dialect/src/mysql.rs:79-92 | a tidy pair with its diff and an empty table to which MySQL refuses to add an `@id` field |
| `Limits.UniqueIsNotMigrated` | crates/migrate/src/diff.rs:184-215 | a tidy pair that differs in one `@unique`, whose diff is empty and whose result does not conform |
| `Limits.NewIndexIsMissing` | crates/migrate/src/diff.rs:56-62 | a model with an index whose creation runs and does not conform |
| `Limits.BlockKeyIsMissing` | crates/dialect/src/common.rs:598-621 | a model with a block key of one field whose creation runs and does not conform |
| `Linked.BlockKeyCannotBeReferred` | crates/dialect/src/common.rs:598-621 | two created models, one of which refers to the other's block key of one field, on which the plan fails |
| `Limits.HintIsNeverDone` | crates/migrate/src/diff.rs:82-117 | a valid schema whose every diff with itself has a rename |
| `LostUnique.UniqueIsLost` | crates/migrate/src/plan.rs:408-475 | two tidy pairs, one with an early and one with a late drop, and a catalogue on which the migration runs and loses a unique that both schemas have |
| `LostUnique.LostUniqueCannotBeDropped` | crates/dialect/src/postgres.rs:187-193 | a tidy pair and a catalogue, ready as to its data, on which the migration fails at dropping a unique that an early column drop took along |
| `Linked.UniqueIsHeld` | crates/migrate/src/plan.rs:538-548 | two schemas of two models that differ in where a unique is written, with their diff and a conforming catalogue on which the plan fails, because a foreign key depends on the unique |
| `Linked.RequiredTooEarly` | crates/migrate/src/plan.rs:125-130 | two schemas of two models in which an optional relation becomes required, with their diff and empty tables on which the plan fails on MySQL |
| `DropOrder.SortedInOrder` | crates/migrate/src/plan.rs:299-314 | tables listed so that every two of them are as the comparator wants, with references that go one way, can be dropped in that order |
| `DropOrder.NeighboursAreNotEnough` | crates/migrate/src/plan.rs:599-623 | three tables whose every two neighbours the comparator has in order, and whose drops the server refuses |
| `Limits.MovedAndRetyped` | crates/migrate/src/diff.rs:154-181 | a tidy pair with its diff and an empty table on which the plan for a moved and retyped field fails |
| `Sqlite.RebuiltAdd` | crates/dialect/src/sqlite.rs:265-428 | a required add on SQLite runs iff the field is neither `@unique` nor `@id`, the rebuilt table has one `@id` at most and none beside a composite key, and every column of the model's foreign keys, uniques and composite key is there by then; it keeps every row and old cell |
| `LiteAdds.RunAddAll` | crates/migrate/src/plan.rs:355-397 | any sequence of adds runs iff no added field is `@unique` or `@id` and each may run by then; every rebuild copies the physical table, and all rows, old cells and new values, row by row, are there at the end |
| `LiteAdds.ColumnsToAdd` | crates/migrate/src/plan.rs:316-353 | for every table, the statements are those of its adds in order, each from the model the table has by then |
| `LiteAdds.TidyAddsFresh` | crates/migrate/src/diff.rs:119-133 | on a tidy pair every added field and column is new when its turn comes |
| `LiteAdds.NewIndexTwice` | crates/dialect/src/sqlite.rs:381-422 | after any sequence of adds, creating an index is accepted iff the adds run, its columns exist, and no rebuild left an index of that name |
| `LiteAdds.LastRebuildDecides` | crates/dialect/src/sqlite.rs:381-422 | the indexes there at the end are those that the table of the last rebuild could carry, by name, columns and uniqueness |
| `LiteLimits.UniqueCannotBeAdded` | crates/dialect/src/sqlite.rs:74-83 | a tidy pair whose diff adds an optional `@unique` field, which an empty table does not take |
| `LiteLimits.IdCannotBeAdded` | crates/dialect/src/sqlite.rs:74-83 | a tidy pair whose diff adds an `@id` field, which an empty table does not take |
| `LiteLimits.KeyMadeTwice` | crates/dialect/src/sqlite.rs:280-292 | a tidy pair that turns an `@id` into a composite key and adds a required field, whose rebuild has two primary keys |
| `LiteLimits.UniqueTooEarly` | crates/dialect/src/sqlite.rs:265-428 | a tidy pair whose diff adds two required fields, the second unique by a block attribute, and whose first rebuild fails |
| `LiteLinks.ForeignKeyTooEarly` | crates/dialect/src/sqlite.rs:296-345 | two schemas of two models whose diff adds two required fields, the second of which is the column of a new foreign key, and whose first rebuild fails |
| `LiteLimits.IndexCreatedTwice` | crates/dialect/src/sqlite.rs:381-422 | a tidy pair whose diff adds a required field and an index over an old column, which is then created twice |
| `Drift.Detect` | crates/migrate/src/drift.rs:24-80 | reports exactly the differences, and none iff the live tables, columns and NOT NULL flags are the snapshot's |
| `Drift.NoDriftAfter` | crates/migrate/src/drift.rs:24-80 | a catalogue with a schema's tables, as every migration that runs leaves behind, shows no drift |
| `Splitter.DollarTagLen` | crates/migrate/src/runner.rs:718-739 | positive exactly where a dollar, a name or nothing, and a dollar stand, and then their length |
| `Splitter.SplitStatements` | crates/migrate/src/runner.rs:631-712 | the loop over positions computes the split of the specification, which the next four lemmas describe |
| `Lexis.SplitSays` | crates/migrate/src/runner.rs:631-712 | the statements of a script are what its pieces say between the semicolons, trimmed and without the blank ones; literals and dollar-quoted bodies say themselves, comments a space |
| `Lexis.Readable` | crates/migrate/src/runner.rs:631-712 | every script is a sequence of such pieces |
| `Lexis.OneReading` | crates/migrate/src/runner.rs:631-712 | and of no two |
| `Lexis.StaysWhole` | crates/migrate/src/runner.rs:645-693 | a literal, dollar-quoted body or comment, whatever it holds, is one statement with the bare text around it |
| `SplitLaws.JoiningJoins` | crates/migrate/src/runner.rs:631-712 | joining a script with any other by `;` joins their statements iff every token of the first is complete |
| `SplitLaws.UnfinishedComment` | crates/migrate/src/runner.rs:683-692 | a script that is one unfinished block comment is split into one statement, the comment's last character, unless that is white space or a separator |
| `Resplit.SplitStatementsOnly` | crates/migrate/src/runner.rs:631-712 | every result is non-empty, trimmed, and free of comments and separators outside literals and bodies; all but the last are complete |
| `Resplit.QuotedThrough` | crates/migrate/src/runner.rs:631-712 | the literals and bodies of the statements, one after the other, are exactly those of the script, in order and character by character, with only the end of an open last one trimmed |
| `Resplit.QuotedComplete` | crates/migrate/src/runner.rs:631-712 | and none is trimmed when every token of the script is complete |
| `Resplit.SplitIsStable` | crates/migrate/src/runner.rs:631-712 | joining the statements of any script and splitting again gives the same statements |
| `Resplit.NeverSkipped` | crates/migrate/src/runner.rs:299-307 | no statement of any script is empty or starts with a comment, so none is skipped for that |
| `Runner.Pending` | crates/migrate/src/runner.rs:159-165 | the filter loop keeps exactly the unapplied migrations, in order |
| `Runner.AlwaysAPrefix` | crates/migrate/src/runner.rs:228-348 | under every schedule the applied set is a prefix of the directory that never shrinks, and the statements that took effect are exactly those of the prefix, in order |
| `Runner.ReturnMeansDone` | crates/migrate/src/runner.rs:239-347 | a deployer that returns successfully leaves the whole directory applied |
| `Runner.ReportsAreExclusive` | crates/migrate/src/runner.rs:339-347 | no migration is reported twice, by one deployer or by two, or without having been applied |
| `Consent.AppliedWithConsent` | crates/migrate/src/runner.rs:252-339 | every migration that a run applies is applied in one step of one deployer; it needs no backfill, and is not destructive unless that deployer accepts data loss; it is in the report of that deployer, unless the commit went unheard, and in no other |
| `Consent.FinishesIfAgreed` | crates/migrate/src/runner.rs:239-347 | a deployer that is alone can return successfully iff no migration that is left needs a backfill, and none is destructive or it accepts data loss |
| `Consent.FinishesAlone` | crates/migrate/src/runner.rs:239-347 | and then it can with everything applied, and everything that was left reported in order |
| `Runner.NeverStuck` | crates/migrate/src/runner.rs:262-290 | while a deployer has not ended, some deployer can go on without failing by itself: the lock is always released |
| `Runner.SchedulesEnd` | crates/migrate/src/runner.rs:228-348 | every schedule is shorter than a bound computed from its first state |
| `Sides.CollectSides` | crates/parser/src/lower.rs:1057-1123 | collects exactly the relation fields that take part, each once; a problem is recorded iff some field is refused |
| `Sides.GroupSides` | crates/parser/src/lower.rs:1024-1038 | deals the sides out by key: non-empty groups, every side in the group of its key |
| `Sides.SameGroup` | crates/parser/src/lower.rs:1028-1033 | two sides share a group iff they have the same name and the same two models, either way round |
| `Build.BuildRelation` | crates/parser/src/lower.rs:1334-1489 | an entry is built iff every foreign-key field is a column, every reference a key, and they pair up; its columns are theirs; a problem is recorded otherwise, and for types or nullability that do not fit |
| `Build.BuildManyToMany` | crates/parser/src/lower.rs:1491-1582 | an entry is built iff the join model exists and its first foreign keys to the owner and to the back side are relations; its columns are theirs, it joins what it says, its two foreign keys are one iff the models at both ends are, and a problem is recorded iff a foreign key is missing |
| `Resolve.ResolveImplicit` | crates/parser/src/lower.rs:1585-1882 | both list fields and both foreign keys of the invented join model get entries of their own, unless a primary key is missing; the join model has a required column of the type of each key, a foreign key on each, and both as its key, and the entries have the columns of these foreign keys; they join what they say iff the two sides face each other; also where the name is taken, the first entry claims the join model's first foreign key and no other declared model changes |
| `Resolve.MirroredUnlessSelf` | crates/parser/src/lower.rs:1795-1850 | the entries of the two list fields read the join table from opposite ends iff their models differ |
| `Resolve.ResolveGroup` | crates/parser/src/lower.rs:1125-1213 | a group resolves to a pair with pointers from both sides, or leaves a problem; a foreign key and its back side get one entry, many-to-one iff the back side is a list; pointers stay consistent and other fields untouched; a problem is recorded iff the group is no pair of lists and no foreign key with a back side that can be built of columns that go together |
| `Through.ResolveThroughGroup` | crates/parser/src/lower.rs:1241-1331 | a through group resolves all four sides or leaves a problem, and its entries always make sense; those of foreign keys have the list on the model they lead to as their back side; a problem is recorded iff the group is not two lists that face each other and two good foreign keys that lead to both |
| `Relations.ResolveRelations` | crates/parser/src/lower.rs:1015-1046 | if no invented name is declared, a problem is reported iff the schema has a flaw (a refused field, a side without exactly one partner, a bad foreign key, a bad join model), and declared models stay as declared; without problems, entries and fields are in one-to-one correspondence iff no two invented names clash. If names are fresh: entry i's owner field points to i, owners are distinct, every pointer is in range and its entry names the field, and every entry has the tables and columns that the models declare for its fields and references, or for its join model's; without problems every relation field of every model is resolved; the result is coherent if partners face each other, and, without problems, only then |
| `Clashes.CrossedPair` | crates/parser/src/lower.rs:1188-1212 | a schema that meets every condition of resolution, resolves without a problem, and to an incoherent result |
| `Clashes.ClashGoesUnreported` | crates/parser/src/lower.rs:1598-1601 | a schema whose two implicit relations get one join model, without a problem, and whose entries share a foreign key |
| `Clashes.PlainNamesApart` | crates/parser/src/lower.rs:1598-1601 | names without `_` and without `To`, and partners that face each other, rule that out |
| `Clashes.UnderscoreIsFree` | crates/parser/src/lower.rs:1598-1601 | no declared model bears an invented name if none begins with `_` |
| `EditDistance.SingleRow` | crates/migrate/src/rename.rs:155-171 | the in-place table with the shortcut on equal characters computes the distance |
| `EditDistance.TwoRowsSwapped` | crates/core/src/suggest.rs:13-40 | the swapping table computes the distance of the lower-cased texts |
| `EditDistance.TwoRowsCopied` | crates/check/src/validate.rs:502-527 | the copying table computes the distance of the texts with ASCII case ignored |
| `EditDistance.FindBestMatch` | crates/check/src/validate.rs:485-500 | the first of the nearest options, if any is within three edits |
| `EditDistance.BestScript` | crates/core/src/suggest.rs:8-40 | some edit script costs as much as the distance |
| `EditDistance.NoBetterScript` | crates/core/src/suggest.rs:8-40 | and none costs less |
| `EditDistance.Triangle` | crates/core/src/suggest.rs:8-40 | the distance satisfies the triangle inequality |
| `EditDistance.DistSymmetric` | crates/core/src/suggest.rs:8-40 | the distance is symmetric |
| `EditDistance.DistZero` | crates/core/src/suggest.rs:8-40 | the distance is zero only on equal texts |
| `EditDistance.EqualEnds` | crates/migrate/src/rename.rs:162-166 | on equal last characters the diagonal cell is the minimum |
| `EditDistance.DistancesAgree` | crates/migrate/src/rename.rs:155-171 | on text that lower-casing leaves alone, the three distances agree |

## Left out

- Order of changes in the diff: the methods of `Diff` produce a fixed order, their contracts only say which changes there are; the planner sorts by kind.
- Order of CREATE TABLE and DROP TABLE: the sort itself is not modelled. `Migrate.PlanMigrates` holds for every order of creates, as inline foreign keys do not exist on the dialects it covers, and says for every order of drops whether it runs.
- Migrate.PlanMigrates: rows are not checked against foreign keys and uniques when these are added, nor is the type of a foreign key's columns compared with its target's.
- Migrate.PlanMigrates: not modelled are that MySQL refuses to change the type of a foreign key's column and creates an index for it by itself, and that Postgres keeps index names unique per schema. Where several keys could serve a foreign key of Postgres, `World.relies` says which one does.
- Native types, identity columns, generated columns, CHECK constraints and extensions are not in the catalogue; a change of kind stands for a change of type. Enum changes are in the diff, and their statements are not in the plan. A primary key that changes in the schema is no change to the diff.
- Constraints.RunKeyAdds: an index or unique is a name and a list of fields; targets that are expressions, `where` clauses, index types and sort orders are not in `Ir.IndexDef`. On MySQL the program renders a partial index as a comment, so that none is created.
- ConDiff.SoundKey: the fields of a primary key are required, as the theorems on constraints assume; the parser does not refuse optional ones.
- SQL text, quoting and type names: statements are steps on a catalogue, not strings.
- Tidy pairs only: renaming a table, swapping columns, reusing the source field of a hint and turning a column into a navigation property are outside `Tidy.TidySchemas`.
- SQLite beyond added columns: renames and alters rebuild from the final model and are not covered; inline checks and foreign-key actions of the rebuilt table are not modelled; index names are per table.
- LiteAdds.RunAddAll: requires that the target's indexes and uniques have names of their own and lie on columns. The claim is about the table that is added to. The runner puts a script into one transaction, in which `PRAGMA foreign_keys=OFF` has no effect, so that, where foreign keys are enforced, dropping a rebuilt table acts on the rows that refer to it as deleting all its rows would: by the action of the foreign key they are deleted or set to NULL, or the drop is refused. Those rows, of other tables and of the copy of a table that refers to itself, and this effect on them are not modelled. Nor is the primary key part of `Sqlite.Table`, so that a rebuild does not check the rows against a composite key of the target.
- LiteAdds.ColumnsToAdd: statements are tagged with their model instead of carrying the table name, as tables are separate.
- Down migrations: `down_sql` plans the reverse diff, to which the same theorems apply when that pair is tidy; its comments are not modelled.
- Runner.AlwaysAPrefix: for a fixed directory with distinct names and Postgres, with no `rollback`, `resolve`, `reset` or `squash` during the run; MySQL and SQLite take no advisory lock and are not covered. Checksum verification, the clock, metrics and the file system are left out; a failure of any of them is an event `Break`. A script is taken to hold no transaction control of its own: a `COMMIT` in it would end the transaction that ties its statements to the tracking row.
- Splitter.SplitStatements: quoted identifiers are not a token, as in the program.
- Relations.ResolveRelations: requires that relation targets exist and that the first primary-key field is a column. Of a schema that declares a model under a name that resolution makes up it says nothing: the program overwrites the declared model. Relation names, referential actions, constraint names, spans and the wording of diagnostics are not in the model, nor is the index of an invented join model.
- Resolve.ResolveImplicit: gives up silently when a primary key is missing, as the program does; validation reports that elsewhere.
- Rename candidates' scores and thresholds, and `closest`: easy once the distance is known.
- The language server (formatter, positions), introspection, code generation, the command line and the query checker's rules.
