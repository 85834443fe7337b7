/**
 The part of the intermediate representation that the migration engine reads
 (`crates/core/src/ir.rs`), and the change taxonomy (`crates/migrate/src/change.rs`).
 */
module Ir {
  import opened Names

  datatype Option<+T> = None | Some(value: T)

  /** An insertion-ordered map, as the `indexmap` crate provides. */
  datatype IndexMap<K(==,!new), +V> = IndexMap(keys: seq<K>, entries: map<K, V>)
  {
    ghost predicate Valid() {
      && (forall i, j :: 0 <= i < j < |keys| ==> keys[i] != keys[j])
      && (forall k :: k in keys <==> k in entries)
    }

    predicate Has(k: K) {
      k in entries
    }

    function Get(k: K): V
      requires Has(k)
    {
      entries[k]
    }
  }

  /** Overwrites an entry in place, or appends a new one. */
  function Put<K(==,!new), V>(m: IndexMap<K, V>, k: K, v: V): IndexMap<K, V> {
    IndexMap(if m.Has(k) then m.keys else m.keys + [k], m.entries[k := v])
  }

  datatype ScalarType =
    | String | Int | BigInt | Float | Decimal | Boolean | DateTime | Date | Time | Uuid | Json | Bytes
    | Point | Polygon | MultiPolygon | LineString

  /** A navigation property carries no column; only the fact that it is one matters here. */
  datatype FieldKind =
    | Scalar(scalar: ScalarType)
    | Enum(enum: EnumName)
    | Relation(target: ModelName)
    | List(inner: FieldKind)

  datatype Literal = StringLit(s: string) | IntLit(n: int) | BoolLit(b: bool) | EnumVariant(variant: string)

  datatype DefaultFn = Uuid4 | Uuid7 | Cuid2 | Nanoid | Now | AutoIncrement

  datatype DefaultValue = LiteralDefault(lit: Literal) | FunctionDefault(fn: DefaultFn) | DbGenerated(sql: string)

  /** A field of a model. `isId` is its `@id`, and `isUnique` the `@unique` of a field that is not the `@id`. */
  datatype Field = Field(
    name: FieldName,
    column: string,
    kind: FieldKind,
    optional: bool,
    default: Option<DefaultValue>,
    renamedFrom: Option<FieldName>,
    isUnique: bool,
    isId: bool)
  {
    predicate HasColumn() {
      kind.Scalar? || kind.Enum? || (kind.List? && (kind.inner.Scalar? || kind.inner.Enum?))
    }
  }

  /** An index or a unique constraint. Equality covers the source span, as the program's does. */
  datatype IndexDef = IndexDef(dbName: string, targets: seq<FieldName>, span: nat)

  datatype Model = Model(
    name: ModelName,
    table: string,
    fields: IndexMap<FieldName, Field>,
    primary: seq<FieldName>,
    indexes: seq<IndexDef>,
    uniques: seq<IndexDef>)
  {
    /** Names are keys, and no two fields share a column (rule V16 of the validator). */
    ghost predicate Valid() {
      && fields.Valid()
      && (forall n :: n in fields.entries ==> fields.entries[n].name == n)
      && (forall n, k :: OwnsColumn(n) && OwnsColumn(k) && Column(n) == Column(k) ==> n == k)
    }

    /** One primary key, of existing fields: that of the `@id` field, or of a block `@@id` (rule V01). */
    ghost predicate HasOneKey() {
      && primary != [] && (forall n :: n in primary ==> fields.Has(n))
      && (forall n :: fields.Has(n) && fields.Get(n).isId ==> primary == [n])
    }

    predicate OwnsColumn(n: FieldName) {
      fields.Has(n) && fields.Get(n).HasColumn()
    }

    function Column(n: FieldName): string
      requires fields.Has(n)
    {
      fields.Get(n).column
    }
  }

  datatype RelationKind = OneToOne | ManyToOne | ManyToMany

  datatype ReferentialAction = Cascade | Restrict | SetNull | SetDefault | NoAction

  datatype ResolvedRelation = ResolvedRelation(
    name: string,
    kind: RelationKind,
    owner: ModelName,
    ownerCols: seq<string>,
    ownerField: FieldName,
    target: ModelName,
    targetTable: string,
    targetCols: seq<string>,
    onDelete: ReferentialAction,
    onUpdate: ReferentialAction,
    constraintName: string)

  /** An enum; its variants are known by their names. */
  datatype EnumDef = EnumDef(name: EnumName, dbName: string, variants: seq<string>)
  {
    ghost predicate Valid() {
      forall i, j :: 0 <= i < j < |variants| ==> variants[i] != variants[j]
    }
  }

  datatype Schema = Schema(
    enums: IndexMap<EnumName, EnumDef>,
    models: IndexMap<ModelName, Model>,
    relations: seq<ResolvedRelation>)
  {
    /** What the parser guarantees of a schema: names are keys, models are valid and have a key, tables are distinct (V16). */
    ghost predicate Valid() {
      && enums.Valid() && models.Valid()
      && (forall e :: e in enums.entries ==> enums.entries[e].name == e && enums.entries[e].Valid())
      && (forall m :: m in models.entries ==> models.entries[m].name == m && models.entries[m].Valid() && models.entries[m].HasOneKey())
      && (forall m, k :: (m in models.entries && k in models.entries && Table(m) == Table(k)) ==> m == k)
    }

    function Table(m: ModelName): string
      requires models.Has(m)
    {
      models.Get(m).table
    }
  }

  datatype Dialect = Postgres | Sqlite | Mysql
  {
    predicate DeferrableFks() {
      !Mysql?
    }

    /** `alter_column_type` and `add_fk_after_create` hold of the same dialects. */
    predicate AltersDirectly() {
      !Sqlite?
    }
  }

  datatype ColumnAspect = TypeAspect | NullabilityAspect | DefaultAspect

  datatype Change =
    | CreateEnum(def: EnumDef)
    | DropEnum(droppedEnum: EnumName, dbName: string)
    | AddEnumVariant(enum: EnumName, variant: string)
    | DropEnumVariant(enum: EnumName, variant: string)
    | CreateModel(created: Model)
    | DropModel(dropped: ModelName, table: string)
    | RenameModel(oldName: ModelName, newName: ModelName, newTable: string)
    | AddColumn(model: ModelName, field: Field)
    | DropColumn(model: ModelName, column: string)
    | AlterColumn(model: ModelName, from: Field, to: Field, aspects: seq<ColumnAspect>)
    | RenameColumn(model: ModelName, fromName: FieldName, toName: FieldName, fromColumn: string, toColumn: string)
    | CreateIndex(model: ModelName, index: IndexDef)
    | DropIndex(model: ModelName, indexName: string)
    | AddUnique(model: ModelName, unique: IndexDef)
    | DropUnique(model: ModelName, uniqueName: string)
    | AddForeignKey(model: ModelName, relation: ResolvedRelation)
    | DropForeignKey(model: ModelName, relation: ResolvedRelation)

  predicate IsEnumChange(c: Change) {
    c.CreateEnum? || c.DropEnum? || c.AddEnumVariant? || c.DropEnumVariant?
  }
}
