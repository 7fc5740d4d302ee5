/**
 * The two request shapes the store accepts: creation data (no id) and a partial update
 * (id required, every other field optional), with the two readings of a partial update:
 * the list of supplied (field, value) pairs that is copied onto a record one at a time,
 * and the field-wise result that list is meant to produce.
 */
module NpcDtos {
  import opened Wrappers
  import opened NpcEntity

  /** Creation data: every field of a record except the id; location may be absent. */
  datatype NpcCreate = NpcCreate(
    name: string,
    description: string,
    health: int,
    strength: int,
    agility: int,
    intelligence: int,
    dialogue: seq<string>,
    isHostile: bool,
    location: Option<string>)

  /**
   * A partial update of the record with key `id`. `None` means "not supplied, leave as is".
   * For `location`, `Some(None)` is an explicitly supplied empty location, which clears it.
   */
  datatype NpcUpdate = NpcUpdate(
    id: int,
    name: Option<string>,
    description: Option<string>,
    health: Option<int>,
    strength: Option<int>,
    agility: Option<int>,
    intelligence: Option<int>,
    dialogue: Option<seq<string>>,
    isHostile: Option<bool>,
    location: Option<Option<string>>)

  /** The record built from creation data under a store-assigned id. */
  function FromCreate(id: int, c: NpcCreate): (n: Npc)
    ensures n.id == id && ToCreate(n) == c
  {
    Npc(id, c.name, c.description, c.health, c.strength, c.agility, c.intelligence,
        c.dialogue, c.isHostile, c.location)
  }

  /** The creation data a record carries, that is, the record without its id. */
  function ToCreate(n: Npc): NpcCreate
  {
    NpcCreate(n.name, n.description, n.health, n.strength, n.agility, n.intelligence,
              n.dialogue, n.isHostile, n.location)
  }

  /** A record is rebuilt exactly from its id and its creation data. */
  lemma FromCreateToCreate(n: Npc)
    ensures FromCreate(n.id, ToCreate(n)) == n
  {
  }

  /** One supplied (field, value) pair of a partial update. */
  datatype Field =
    | Id(int)
    | Name(string)
    | Description(string)
    | Health(int)
    | Strength(int)
    | Agility(int)
    | Intelligence(int)
    | Dialogue(seq<string>)
    | IsHostile(bool)
    | Location(Option<string>)

  /**
   * The pair for attribute `k` of `u` when `u` supplies it, attributes numbered in declaration
   * order (0 id, 1 name, 2 description, 3 health, 4 strength, 5 agility, 6 intelligence,
   * 7 dialogue, 8 is_hostile, 9 location). The id is always supplied.
   */
  function Piece(u: NpcUpdate, k: nat): (p: seq<Field>)
    ensures |p| <= 1
  {
    match k
    case 0 => [Id(u.id)]
    case 1 => if u.name.Some? then [Name(u.name.value)] else []
    case 2 => if u.description.Some? then [Description(u.description.value)] else []
    case 3 => if u.health.Some? then [Health(u.health.value)] else []
    case 4 => if u.strength.Some? then [Strength(u.strength.value)] else []
    case 5 => if u.agility.Some? then [Agility(u.agility.value)] else []
    case 6 => if u.intelligence.Some? then [Intelligence(u.intelligence.value)] else []
    case 7 => if u.dialogue.Some? then [Dialogue(u.dialogue.value)] else []
    case 8 => if u.isHostile.Some? then [IsHostile(u.isHostile.value)] else []
    case 9 => if u.location.Some? then [Location(u.location.value)] else []
    case _ => []
  }

  /** The supplied pairs of attributes `k` and later, in declaration order. */
  function SetFieldsFrom(u: NpcUpdate, k: nat): seq<Field>
    decreases 10 - k
  {
    if k >= 10 then [] else Piece(u, k) + SetFieldsFrom(u, k + 1)
  }

  /** The supplied pairs of `u`: what the update carries once unset fields are excluded. */
  function SetFields(u: NpcUpdate): seq<Field>
  {
    SetFieldsFrom(u, 0)
  }

  /** The number of the attribute a pair sets, in the numbering of `Piece`. */
  function FieldIndex(f: Field): (k: nat)
    ensures k < 10
  {
    match f
    case Id(_) => 0
    case Name(_) => 1
    case Description(_) => 2
    case Health(_) => 3
    case Strength(_) => 4
    case Agility(_) => 5
    case Intelligence(_) => 6
    case Dialogue(_) => 7
    case IsHostile(_) => 8
    case Location(_) => 9
  }

  /** `u` supplies the pair `f`: the id is `u`'s own, any other attribute is `Some` of the value. */
  predicate Supplies(u: NpcUpdate, f: Field)
  {
    match f
    case Id(v) => v == u.id
    case Name(v) => u.name == Some(v)
    case Description(v) => u.description == Some(v)
    case Health(v) => u.health == Some(v)
    case Strength(v) => u.strength == Some(v)
    case Agility(v) => u.agility == Some(v)
    case Intelligence(v) => u.intelligence == Some(v)
    case Dialogue(v) => u.dialogue == Some(v)
    case IsHostile(v) => u.isHostile == Some(v)
    case Location(v) => u.location == Some(v)
  }

  /** The record `n` carries the pair `f`: the attribute of `f` has the value of `f`. */
  predicate Holds(n: Npc, f: Field)
  {
    match f
    case Id(v) => n.id == v
    case Name(v) => n.name == v
    case Description(v) => n.description == v
    case Health(v) => n.health == v
    case Strength(v) => n.strength == v
    case Agility(v) => n.agility == v
    case Intelligence(v) => n.intelligence == v
    case Dialogue(v) => n.dialogue == v
    case IsHostile(v) => n.isHostile == v
    case Location(v) => n.location == v
  }

  /** A pair can only come from the piece of its own attribute, and does exactly when supplied. */
  lemma PieceMembers(u: NpcUpdate, k: nat, f: Field)
    ensures f in Piece(u, k) <==> k == FieldIndex(f) && Supplies(u, f)
  {
  }

  /** The pairs from attribute `k` on are the supplied pairs of attributes numbered `k` or more. */
  lemma {:induction false} SetFieldsFromMembers(u: NpcUpdate, k: nat, f: Field)
    requires k <= 10
    ensures f in SetFieldsFrom(u, k) <==> k <= FieldIndex(f) && Supplies(u, f)
    decreases 10 - k
  {
    if k < 10 {
      assert SetFieldsFrom(u, k) == Piece(u, k) + SetFieldsFrom(u, k + 1);
      PieceMembers(u, k, f);
      SetFieldsFromMembers(u, k + 1, f);
    }
  }

  /**
   * The supplied pairs start with the id, and hold a pair exactly when the update supplies it:
   * `Name(v)` is among them iff `u.name == Some(v)`, and so on for every attribute.
   */
  lemma SetFieldsSupplied(u: NpcUpdate)
    ensures |SetFields(u)| >= 1 && SetFields(u)[0] == Id(u.id)
    ensures forall f :: f in SetFields(u) <==> Supplies(u, f)
  {
    assert SetFields(u) == Piece(u, 0) + SetFieldsFrom(u, 1);
    forall f
      ensures f in SetFields(u) <==> Supplies(u, f)
    {
      SetFieldsFromMembers(u, 0, f);
    }
  }

  /** The partial update of the record with key `id` that supplies exactly the pair `f`. */
  function OnlyField(id: int, f: Field): NpcUpdate
  {
    var none := NpcUpdate(id, None, None, None, None, None, None, None, None, None);
    match f
    case Id(v) => none.(id := v)
    case Name(v) => none.(name := Some(v))
    case Description(v) => none.(description := Some(v))
    case Health(v) => none.(health := Some(v))
    case Strength(v) => none.(strength := Some(v))
    case Agility(v) => none.(agility := Some(v))
    case Intelligence(v) => none.(intelligence := Some(v))
    case Dialogue(v) => none.(dialogue := Some(v))
    case IsHostile(v) => none.(isHostile := Some(v))
    case Location(v) => none.(location := Some(v))
  }

  /**
   * Sets one attribute of a record. Setting the attribute of `f` is the field-wise update that
   * supplies `f` alone: that attribute takes the value of `f`, every other attribute is kept.
   */
  function Assign(n: Npc, f: Field): (r: Npc)
    ensures r == ApplyUpdate(n, OnlyField(n.id, f))
  {
    match f
    case Id(v) => n.(id := v)
    case Name(v) => n.(name := v)
    case Description(v) => n.(description := v)
    case Health(v) => n.(health := v)
    case Strength(v) => n.(strength := v)
    case Agility(v) => n.(agility := v)
    case Intelligence(v) => n.(intelligence := v)
    case Dialogue(v) => n.(dialogue := v)
    case IsHostile(v) => n.(isHostile := v)
    case Location(v) => n.(location := v)
  }

  /** Sets the attributes of `fs` one after another, first to last. */
  function AssignAll(n: Npc, fs: seq<Field>): Npc
  {
    if fs == [] then n else Assign(AssignAll(n, fs[..|fs| - 1]), fs[|fs| - 1])
  }

  /**
   * The field-wise meaning of a partial update: each supplied field takes the supplied value,
   * each field left `None` keeps the value of `n`.
   */
  function ApplyUpdate(n: Npc, u: NpcUpdate): (r: Npc)
    ensures forall f :: Holds(r, f) <==> Supplies(u, f) || (Piece(u, FieldIndex(f)) == [] && Holds(n, f))
  {
    Npc(u.id,
        u.name.GetOr(n.name),
        u.description.GetOr(n.description),
        u.health.GetOr(n.health),
        u.strength.GetOr(n.strength),
        u.agility.GetOr(n.agility),
        u.intelligence.GetOr(n.intelligence),
        u.dialogue.GetOr(n.dialogue),
        u.isHostile.GetOr(n.isHostile),
        u.location.GetOr(n.location))
  }

  /** Assigning the pairs of `a + b` is assigning those of `a`, then those of `b`. */
  lemma {:induction false} AssignAllConcat(n: Npc, a: seq<Field>, b: seq<Field>)
    ensures AssignAll(n, a + b) == AssignAll(AssignAll(n, a), b)
  {
    if b == [] {
      assert a + b == a;
    } else {
      var b' := b[..|b| - 1];
      assert (a + b)[..|a + b| - 1] == a + b';
      AssignAllConcat(n, a, b');
    }
  }

  /** Assigning at most one pair is that single assignment, or nothing. */
  lemma AssignAllAtMostOne(n: Npc, p: seq<Field>)
    requires |p| <= 1
    ensures AssignAll(n, p) == if p == [] then n else Assign(n, p[0])
  {
  }

  /** `n` with attributes `k` and later updated field-wise by `u`, and earlier ones kept. */
  function UpdateFrom(n: Npc, u: NpcUpdate, k: nat): Npc
  {
    Npc(if k <= 0 then u.id else n.id,
        if k <= 1 then u.name.GetOr(n.name) else n.name,
        if k <= 2 then u.description.GetOr(n.description) else n.description,
        if k <= 3 then u.health.GetOr(n.health) else n.health,
        if k <= 4 then u.strength.GetOr(n.strength) else n.strength,
        if k <= 5 then u.agility.GetOr(n.agility) else n.agility,
        if k <= 6 then u.intelligence.GetOr(n.intelligence) else n.intelligence,
        if k <= 7 then u.dialogue.GetOr(n.dialogue) else n.dialogue,
        if k <= 8 then u.isHostile.GetOr(n.isHostile) else n.isHostile,
        if k <= 9 then u.location.GetOr(n.location) else n.location)
  }

  /** Setting attribute `k` as `u` supplies it, then updating the later ones, updates `k` and later. */
  lemma UpdateFromStep(n: Npc, u: NpcUpdate, k: nat)
    requires k < 10
    ensures var p := Piece(u, k);
            UpdateFrom(if p == [] then n else Assign(n, p[0]), u, k + 1) == UpdateFrom(n, u, k)
  {
  }

  /** Copying the supplied pairs of attributes `k` and later updates exactly those attributes. */
  lemma {:induction false} AssignAllSetFieldsFrom(n: Npc, u: NpcUpdate, k: nat)
    ensures AssignAll(n, SetFieldsFrom(u, k)) == UpdateFrom(n, u, k)
    decreases 10 - k
  {
    if k < 10 {
      var n' := AssignAll(n, Piece(u, k));
      AssignAllConcat(n, Piece(u, k), SetFieldsFrom(u, k + 1));
      AssignAllAtMostOne(n, Piece(u, k));
      UpdateFromStep(n, u, k);
      AssignAllSetFieldsFrom(n', u, k + 1);
    }
  }

  /** Copying the supplied pairs of `u` onto `n` yields the field-wise update of `n` by `u`. */
  lemma AssignAllSetFields(n: Npc, u: NpcUpdate)
    ensures AssignAll(n, SetFields(u)) == ApplyUpdate(n, u)
  {
    AssignAllSetFieldsFrom(n, u, 0);
  }

  /** Supplying only a new name changes the name and nothing else. */
  lemma NameOnlyUpdate(n: Npc, newName: string)
    ensures ApplyUpdate(n, NpcUpdate(n.id, Some(newName), None, None, None, None, None, None, None, None))
            == n.(name := newName)
  {
  }

  /** An update that supplies nothing but the record's own id leaves the record as it was. */
  lemma EmptyUpdateKeepsRecord(n: Npc, u: NpcUpdate)
    requires u == NpcUpdate(n.id, None, None, None, None, None, None, None, None, None)
    ensures ApplyUpdate(n, u) == n
  {
  }

  /** Applying the same partial update twice is the same as applying it once. */
  lemma UpdateIdempotent(n: Npc, u: NpcUpdate)
    ensures ApplyUpdate(ApplyUpdate(n, u), u) == ApplyUpdate(n, u)
  {
  }
}
