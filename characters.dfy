/** Character operations. Every operation on one character first checks that
    it exists and belongs to the caller; a character's `seed` is derived from
    its name, its description and the clock. */
module Characters {
  import opened Wrappers
  import opened Text
  import opened Tables
  import opened Entities
  import opened Store
  import Base64

  const CharacterDenied := "Character not found or access denied"
  const ProjectDenied := "Project not found or access denied"

  // ---------------------------------------------------------------------------
  // generateCharacterSeed

  /** The text the seed encodes: `${name}-${description || ''}-${Date.now()}`. */
  function SeedData(name: string, description: Option<string>, now: nat): string {
    name + SeedSuffix(description, now)
  }

  /** The part of the seed text after the name. */
  function SeedSuffix(description: Option<string>, now: nat): string {
    "-" + StringOr(description, "") + "-" + NatToString(now)
  }

  /** `Buffer.from(data).toString('base64').substring(0, 16)` over the UTF-8
      bytes of the seed text. */
  function SeedOfBytes(bytes: seq<Base64.Byte>): (seed: string)
    ensures |seed| == if |bytes| >= 12 then 16 else 4 * ((|bytes| + 2) / 3)
    ensures forall i :: 0 <= i < |seed| ==> Base64.IsEncodingChar(seed[i])
  {
    var encoded := Base64.Encode(bytes);
    if |encoded| <= 16 then encoded else encoded[..16]
  }

  /** Twelve bytes or more: the seed is the whole encoding of the first twelve,
      and decodes back to them. */
  lemma SeedOfBytesDecodes(bytes: seq<Base64.Byte>)
    requires |bytes| >= 12
    ensures Base64.Decode(SeedOfBytes(bytes)) == Some(bytes[..12])
  {
    var encoded := Base64.Encode(bytes);
    assert SeedOfBytes(bytes) == encoded[..16];
    Base64.EncodePrefix(bytes, 4);
    var head := bytes[..12];
    assert encoded[..16] == Base64.Encode(head);
    Base64.DecodeEncode(head);
  }

  /** Only the first twelve bytes matter. */
  lemma SeedOfBytesPrefix(a: seq<Base64.Byte>, b: seq<Base64.Byte>)
    requires |a| >= 12 && |b| >= 12 && a[..12] == b[..12]
    ensures SeedOfBytes(a) == SeedOfBytes(b)
  {
    assert SeedOfBytes(a) == Base64.Encode(a)[..16];
    assert SeedOfBytes(b) == Base64.Encode(b)[..16];
    Base64.EncodePrefix(a, 4);
    Base64.EncodePrefix(b, 4);
  }

  /** `generateCharacterSeed`. Base 64 output is ASCII, so the seed's UTF-16
      length is its length. */
  function Seed(name: string, description: Option<string>, now: nat): (seed: string)
    ensures 4 <= |seed| <= 16
    ensures forall i :: 0 <= i < |seed| ==> Base64.IsEncodingChar(seed[i])
  {
    SeedOfBytes(Base64.Utf8(SeedData(name, description, now)))
  }

  /** Once the seed text has twelve bytes, the seed is the full 16-character
      encoding of exactly those twelve bytes, and decodes back to them. */
  lemma SeedDecodes(name: string, description: Option<string>, now: nat)
    requires |Base64.Utf8(SeedData(name, description, now))| >= 12
    ensures |Seed(name, description, now)| == 16
    ensures Base64.Decode(Seed(name, description, now)) == Some(Base64.Utf8(SeedData(name, description, now))[..12])
  {
    SeedOfBytesDecodes(Base64.Utf8(SeedData(name, description, now)));
  }

  /** A name of twelve or more bytes fixes the seed: the description and the
      clock no longer change it, so such characters made or renamed at any time
      share one seed. */
  lemma SeedOfLongName(name: string, d1: Option<string>, t1: nat, d2: Option<string>, t2: nat)
    requires |Base64.Utf8(name)| >= 12
    ensures Seed(name, d1, t1) == Seed(name, d2, t2)
  {
    SameNameSameSeed(name, SeedSuffix(d1, t1), SeedSuffix(d2, t2));
  }

  lemma SameNameSameSeed(name: string, rest1: string, rest2: string)
    requires |Base64.Utf8(name)| >= 12
    ensures SeedOfBytes(Base64.Utf8(name + rest1)) == SeedOfBytes(Base64.Utf8(name + rest2))
  {
    var n := Base64.Utf8(name);
    var b1, b2 := Base64.Utf8(name + rest1), Base64.Utf8(name + rest2);
    assert b1[..12] == n[..12] by {
      Base64.Utf8Append(name, rest1);
      PrefixOfAppend(n, Base64.Utf8(rest1), 12);
    }
    assert b2[..12] == n[..12] by {
      Base64.Utf8Append(name, rest2);
      PrefixOfAppend(n, Base64.Utf8(rest2), 12);
    }
    SeedOfBytesPrefix(b1, b2);
  }

  lemma PrefixOfAppend(a: seq<Base64.Byte>, b: seq<Base64.Byte>, k: nat)
    requires k <= |a|
    ensures (a + b)[..k] == a[..k]
  {
  }

  // ---------------------------------------------------------------------------
  // Create and read

  /** The `embedding` JSON written on creation. */
  function CreationEmbedding(seed: string, name: string, description: Option<string>,
                             imageUrl: Option<string>, isoNow: string): (e: Embedding)
    ensures e.Keys <= {"seed", "name", "description", "imageUrl", "createdAt"}
    ensures "seed" in e && "name" in e && "createdAt" in e
    ensures e["seed"] == JString(seed) && e["name"] == JString(name) && e["createdAt"] == JString(isoNow)
    ensures ("description" in e <==> description.Some?) && ("imageUrl" in e <==> imageUrl.Some?)
    ensures description.Some? ==> e["description"] == JString(description.value)
    ensures imageUrl.Some? ==> e["imageUrl"] == JString(imageUrl.value)
  {
    var base := map["seed" := JString(seed), "name" := JString(name), "createdAt" := JString(isoNow)];
    var withDescription := if description.Some? then base["description" := JString(description.value)] else base;
    if imageUrl.Some? then withDescription["imageUrl" := JString(imageUrl.value)] else withDescription
  }

  method CreateCharacter(db: Database, userId: string, name: string, description: Option<string>,
                         imageUrl: Option<string>, projectId: Option<string>, now: nat, isoNow: string)
    returns (c: Character)
    requires db.Valid()
    modifies db
    ensures db.Valid() && OnlyCharactersChanged(db)
    ensures db.characters == old(db.characters) + [c] && c.id !in Keys(old(db.characters), CharacterKey)
    ensures c.userId == userId && !c.isLocked && c.name == name && c.description == description
    ensures c.imageUrl == imageUrl && c.projectId == projectId && c.createdAt == now && c.updatedAt == now
    ensures c.seed == Seed(name, description, now)
    ensures c.embedding == Some(CreationEmbedding(c.seed, name, description, imageUrl, isoNow))
  {
    var seed := Seed(name, description, now);
    var id := NewKey(Keys(db.characters, CharacterKey));
    c := Character(id, name, description, seed, imageUrl, userId, projectId, false,
                   Some(CreationEmbedding(seed, name, description, imageUrl, isoNow)), now, now);
    UniqueKeysAppend(db.characters, c, CharacterKey);
    db.characters := db.characters + [c];
  }

  /** `getUserCharacters`: the user's characters, newest first. */
  function UserCharacters(characters: seq<Character>, userId: string): (r: seq<Character>)
    ensures forall c :: c in r <==> c in characters && c.userId == userId
    ensures forall i, j :: 0 <= i < j < |r| ==> r[i].createdAt >= r[j].createdAt
    ensures multiset(r) == multiset(Filter(characters, (c: Character) => c.userId == userId))
  {
    var mine := Filter(characters, (c: Character) => c.userId == userId);
    SortByMembers(mine, CharacterRecency);
    SortBy(mine, CharacterRecency)
  }

  /** The filter of `getProjectCharacters`: the project's characters and the
      user's global ones (no project). */
  predicate VisibleInProject(c: Character, projectId: string, userId: string) {
    c.projectId == Some(projectId) || (c.projectId.None? && c.userId == userId)
  }

  function ProjectCharacters(projects: seq<Project>, characters: seq<Character>, projectId: string, userId: string)
    : (r: Result<seq<Character>>)
    ensures r.Err? <==> OwnedProject(projects, projectId, userId).None?
    ensures r.Err? ==> r.message == ProjectDenied
    ensures r.Ok? ==> forall c :: c in r.value <==> c in characters && VisibleInProject(c, projectId, userId)
    ensures r.Ok? ==> forall i, j :: 0 <= i < j < |r.value| ==> r.value[i].createdAt >= r.value[j].createdAt
    ensures r.Ok? ==> multiset(r.value) == multiset(Filter(characters, (c: Character) => VisibleInProject(c, projectId, userId)))
  {
    if OwnedProject(projects, projectId, userId).None? then Err(ProjectDenied)
    else
      var visible := Filter(characters, (c: Character) => VisibleInProject(c, projectId, userId));
      SortByMembers(visible, CharacterRecency);
      Ok(SortBy(visible, CharacterRecency))
  }

  /** `getCharacterById`: the character, when it exists and is the caller's. */
  function CharacterById(characters: seq<Character>, characterId: string, userId: string): (r: Result<Character>)
    ensures r.Err? ==> r.message == CharacterDenied
    ensures r.Ok? ==> r.value in characters && r.value.id == characterId && r.value.userId == userId
    ensures characterId !in Keys(characters, CharacterKey) ==> r.Err?
  {
    match FindKey(characters, CharacterKey, characterId)
    case None => Err(CharacterDenied)
    case Some(c) => if c.userId != userId then Err(CharacterDenied) else Ok(c)
  }

  /** With unique ids the check fails exactly for another user's character. */
  lemma CharacterByIdExact(characters: seq<Character>, c: Character, userId: string)
    requires UniqueKeys(characters, CharacterKey) && c in characters
    ensures CharacterById(characters, c.id, userId) == if c.userId == userId then Ok(c) else Err(CharacterDenied)
  {
    FindKeyUnique(characters, CharacterKey, c);
  }

  // ---------------------------------------------------------------------------
  // Update, delete, lock

  /** The fields `updateCharacter` accepts; `None` is not supplied. */
  datatype CharacterPatch = CharacterPatch(
    name: Option<string>,
    description: Option<string>,
    imageUrl: Option<string>,
    isLocked: Option<bool>,
    embedding: Option<Embedding>)

  /** `data.name || data.description`: only a non-empty name or description
      causes a new seed. */
  predicate Regenerates(patch: CharacterPatch) {
    Truthy(patch.name) || Truthy(patch.description)
  }

  /** The merged embedding: the stored members, then `seed`, `name`,
      `description` (`null` when neither the patch nor the row has one) and
      `updatedAt`. */
  function MergedEmbedding(old_: Option<Embedding>, seed: string, name: string,
                           description: Option<string>, isoNow: string): (e: Embedding)
    ensures "seed" in e && "name" in e && "updatedAt" in e
    ensures e["seed"] == JString(seed) && e["name"] == JString(name) && e["updatedAt"] == JString(isoNow)
    ensures "description" in e
    ensures e["description"] == if description.Some? then JString(description.value) else JNull
    ensures forall k :: k in old_.GetOr(map[]) && k !in {"seed", "name", "description", "updatedAt"} ==>
      k in e && e[k] == old_.GetOr(map[])[k]
    ensures e.Keys == old_.GetOr(map[]).Keys + {"seed", "name", "description", "updatedAt"}
  {
    var base := old_.GetOr(map[])["seed" := JString(seed)]["name" := JString(name)]["updatedAt" := JString(isoNow)];
    base["description" := if description.Some? then JString(description.value) else JNull]
  }

  /** The row `updateCharacter` writes. Every supplied field is written as
      given, `isLocked` included; a regenerated seed and its embedding are
      computed from `data.name || character.name` and
      `data.description || character.description`. */
  function UpdatedCharacter(c: Character, patch: CharacterPatch, now: nat, isoNow: string): (r: Character)
    ensures r.id == c.id && r.userId == c.userId && r.projectId == c.projectId && r.createdAt == c.createdAt
    ensures r.updatedAt == now
    ensures r.name == patch.name.GetOr(c.name)
    ensures r.isLocked == patch.isLocked.GetOr(c.isLocked)
    ensures r.description == (if patch.description.Some? then patch.description else c.description)
    ensures r.imageUrl == (if patch.imageUrl.Some? then patch.imageUrl else c.imageUrl)
    ensures !Regenerates(patch) ==> r.seed == c.seed
    ensures !Regenerates(patch) ==> r.embedding == (if patch.embedding.Some? then patch.embedding else c.embedding)
    ensures Regenerates(patch) ==>
      r.seed == Seed(StringOr(patch.name, c.name),
                     Some(StringOr(if Truthy(patch.description) then patch.description else c.description, "")), now)
    ensures Regenerates(patch) ==>
      r.embedding == Some(MergedEmbedding(c.embedding, r.seed, StringOr(patch.name, c.name),
                                          if Truthy(patch.description) then patch.description else c.description,
                                          isoNow))
  {
    var written := c.(
      name := patch.name.GetOr(c.name),
      description := if patch.description.Some? then patch.description else c.description,
      imageUrl := if patch.imageUrl.Some? then patch.imageUrl else c.imageUrl,
      isLocked := patch.isLocked.GetOr(c.isLocked),
      embedding := if patch.embedding.Some? then patch.embedding else c.embedding,
      updatedAt := now);
    if !Regenerates(patch) then written
    else
      var name := StringOr(patch.name, c.name);
      var description := if Truthy(patch.description) then patch.description else c.description;
      var seed := Seed(name, Some(StringOr(description, "")), now);
      written.(seed := seed, embedding := Some(MergedEmbedding(c.embedding, seed, name, description, isoNow)))
  }

  /** Replaces the row with the given id (the caller has found it). */
  method ReplaceCharacter(db: Database, c: Character)
    requires db.Valid() && c.id in Keys(db.characters, CharacterKey)
    modifies db
    ensures db.Valid() && OnlyCharactersChanged(db)
    ensures |db.characters| == |old(db.characters)|
    ensures forall k :: 0 <= k < |db.characters| ==>
      db.characters[k] == if old(db.characters)[k].id == c.id then c else old(db.characters)[k]
  {
    var i := IndexOfKey(db.characters, CharacterKey, c.id).value;
    forall k | 0 <= k < |db.characters| && db.characters[k].id == c.id ensures k == i {
      UniqueKeysSame(db.characters, CharacterKey, i, k);
    }
    UniqueKeysUpdate(db.characters, CharacterKey, i, c);
    db.characters := db.characters[i := c];
  }

  method UpdateCharacter(db: Database, characterId: string, userId: string, patch: CharacterPatch,
                         now: nat, isoNow: string)
    returns (r: Result<Character>)
    requires db.Valid()
    modifies db
    ensures db.Valid() && OnlyCharactersChanged(db)
    ensures r.Err? <==> CharacterById(old(db.characters), characterId, userId).Err?
    ensures r.Err? ==> r.message == CharacterDenied && db.characters == old(db.characters)
    ensures r.Ok? ==> r.value == UpdatedCharacter(CharacterById(old(db.characters), characterId, userId).value, patch, now, isoNow)
    ensures |db.characters| == |old(db.characters)|
    ensures forall k :: 0 <= k < |db.characters| ==>
      db.characters[k] == if r.Ok? && old(db.characters)[k].id == characterId then r.value else old(db.characters)[k]
  {
    var found := CharacterById(db.characters, characterId, userId);
    if found.Err? {
      return Err(found.message);
    }
    var c := UpdatedCharacter(found.value, patch, now, isoNow);
    FindKeyUnique(db.characters, CharacterKey, found.value);
    ReplaceCharacter(db, c);
    r := Ok(c);
  }

  method DeleteCharacter(db: Database, characterId: string, userId: string) returns (r: Result<Character>)
    requires db.Valid()
    modifies db
    ensures db.Valid() && OnlyCharactersChanged(db)
    ensures r == CharacterById(old(db.characters), characterId, userId)
    ensures r.Err? ==> db.characters == old(db.characters)
    ensures r.Ok? ==> db.characters == RemoveKey(old(db.characters), CharacterKey, characterId)
    ensures forall c :: c in db.characters <==> c in old(db.characters) && (r.Err? || c.id != characterId)
  {
    r := CharacterById(db.characters, characterId, userId);
    if r.Ok? {
      RemoveKeyUnique(db.characters, CharacterKey, characterId);
      db.characters := RemoveKey(db.characters, CharacterKey, characterId);
    }
  }

  /** `lockCharacter` (`locked`) and `unlockCharacter` (`!locked`): the flag is set
      whatever it was, so repeating either changes nothing but `updatedAt`. */
  method SetLocked(db: Database, characterId: string, userId: string, locked: bool, now: Time)
    returns (r: Result<Character>)
    requires db.Valid()
    modifies db
    ensures db.Valid() && OnlyCharactersChanged(db)
    ensures r.Err? <==> CharacterById(old(db.characters), characterId, userId).Err?
    ensures r.Err? ==> r.message == CharacterDenied && db.characters == old(db.characters)
    ensures r.Ok? ==> r.value == CharacterById(old(db.characters), characterId, userId).value.(isLocked := locked, updatedAt := now)
    ensures |db.characters| == |old(db.characters)|
    ensures forall k :: 0 <= k < |db.characters| ==>
      db.characters[k] == if r.Ok? && old(db.characters)[k].id == characterId then r.value else old(db.characters)[k]
  {
    var found := CharacterById(db.characters, characterId, userId);
    if found.Err? {
      return Err(found.message);
    }
    var c := found.value.(isLocked := locked, updatedAt := now);
    FindKeyUnique(db.characters, CharacterKey, found.value);
    ReplaceCharacter(db, c);
    r := Ok(c);
  }

  /** `getCharacterEmbedding`. */
  function CharacterEmbedding(characters: seq<Character>, characterId: string, userId: string)
    : (r: Result<Option<Embedding>>)
    ensures r.Err? <==> CharacterById(characters, characterId, userId).Err?
    ensures r.Ok? ==> r.value == CharacterById(characters, characterId, userId).value.embedding
  {
    var found :- CharacterById(characters, characterId, userId);
    Ok(found.embedding)
  }

  // ---------------------------------------------------------------------------
  // Prompts

  const Consistency := ". Maintain consistent appearance, clothing, and style. "

  /** `buildCharacterPrompt`. */
  function BuildCharacterPrompt(name: string, description: Option<string>, scenePrompt: string): (p: string)
    ensures StartsWith(p, "Character: " + name)
    ensures |p| >= |Consistency + "Scene: " + scenePrompt|
    ensures p[|p| - |Consistency + "Scene: " + scenePrompt|..] == Consistency + "Scene: " + scenePrompt
    ensures |p| == 11 + |name| + (if Truthy(description) then 2 + |description.value| else 0)
                   + |Consistency| + 7 + |scenePrompt|
    ensures Truthy(description) ==> p[11 + |name|..13 + |name| + |description.value|] == ", " + description.value
  {
    var detail := if Truthy(description) then ", " + description.value else "";
    var p := "Character: " + name + detail + Consistency + "Scene: " + scenePrompt;
    assert p == ("Character: " + name) + detail + (Consistency + "Scene: " + scenePrompt);
    p
  }

  datatype CharacterPrompt = CharacterPrompt(
    characterPrompt: string,
    characterSeed: string,
    characterName: string,
    embedding: Option<Embedding>)

  /** `generateCharacterPrompt`. */
  function GenerateCharacterPrompt(characters: seq<Character>, characterId: string, scenePrompt: string, userId: string)
    : (r: Result<CharacterPrompt>)
    ensures r.Err? <==> CharacterById(characters, characterId, userId).Err?
    ensures r.Ok? ==> var c := CharacterById(characters, characterId, userId).value;
      r.value.characterSeed == c.seed && r.value.characterName == c.name && r.value.embedding == c.embedding
      && r.value.characterPrompt == BuildCharacterPrompt(c.name, c.description, scenePrompt)
      && StartsWith(r.value.characterPrompt, "Character: " + c.name)
  {
    var c :- CharacterById(characters, characterId, userId);
    Ok(CharacterPrompt(BuildCharacterPrompt(c.name, c.description, scenePrompt), c.seed, c.name, c.embedding))
  }

  // ---------------------------------------------------------------------------
  // getCharacterUsageStats

  datatype UsageStats = UsageStats(
    characterId: string,
    characterName: string,
    totalScenes: nat,
    projects: seq<string>,
    lastUsed: Option<int>)

  /** The store filter `metadata: { contains: characterId }` (a `null`
      metadata never matches). */
  predicate MentionsCharacter(s: Scene, characterId: string) {
    s.metadata.Some? && Contains(s.metadata.value, characterId)
  }

  function UsedBy(characterId: string): Scene -> bool {
    (s: Scene) => MentionsCharacter(s, characterId)
  }

  function ProjectIdsOf(scenes: seq<Scene>): (ids: seq<string>)
    ensures |ids| == |scenes|
    ensures forall i :: 0 <= i < |scenes| ==> ids[i] == scenes[i].projectId
  {
    if scenes == [] then [] else [scenes[0].projectId] + ProjectIdsOf(scenes[1..])
  }

  function CreatedTimesOf(scenes: seq<Scene>): (ts: seq<int>)
    ensures |ts| == |scenes|
    ensures forall i :: 0 <= i < |scenes| ==> ts[i] == scenes[i].createdAt
  {
    if scenes == [] then [] else [scenes[0].createdAt] + CreatedTimesOf(scenes[1..])
  }

  /** `[...new Set(scenes.map(s => s.projectId))]`. */
  function ProjectsOf(used: seq<Scene>): (ids: seq<string>)
    ensures NoDuplicates(ids)
    ensures forall p :: p in ids <==> exists s :: s in used && s.projectId == p
    ensures InFirstOccurrenceOrder(ids, ProjectIdsOf(used))
  {
    var all := ProjectIdsOf(used);
    assert forall p :: p in all <==> exists s :: s in used && s.projectId == p by {
      forall p ensures p in all <==> exists s :: s in used && s.projectId == p {
        if p in all {
          var i :| 0 <= i < |all| && all[i] == p;
          assert used[i] in used;
        }
        if exists s :: s in used && s.projectId == p {
          var s :| s in used && s.projectId == p;
          var i :| 0 <= i < |used| && used[i] == s;
          assert all[i] == p;
        }
      }
    }
    Distinct(all)
  }

  /** The latest `createdAt` among the scenes, `null` when there are none. */
  function LastUsed(used: seq<Scene>): (last: Option<int>)
    ensures last.None? <==> used == []
    ensures last.Some? ==> forall s :: s in used ==> s.createdAt <= last.value
    ensures last.Some? ==> exists s :: s in used && s.createdAt == last.value
  {
    if used == [] then None
    else
      var times := CreatedTimesOf(used);
      var m := Max(times);
      assert forall s :: s in used ==> s.createdAt <= m by {
        forall s | s in used ensures s.createdAt <= m {
          var i :| 0 <= i < |used| && used[i] == s;
          assert times[i] == s.createdAt;
        }
      }
      var i :| 0 <= i < |times| && times[i] == m;
      assert used[i] in used && used[i].createdAt == m;
      Some(m)
  }

  function CharacterUsageStats(characters: seq<Character>, scenes: seq<Scene>, characterId: string, userId: string)
    : (r: Result<UsageStats>)
    ensures r.Err? <==> CharacterById(characters, characterId, userId).Err?
    ensures r.Ok? ==> r.value.characterId == characterId
    ensures r.Ok? ==> r.value.totalScenes == Count(scenes, UsedBy(characterId))
    ensures r.Ok? ==> NoDuplicates(r.value.projects)
    ensures r.Ok? ==> forall p :: p in r.value.projects <==>
      exists s :: s in scenes && MentionsCharacter(s, characterId) && s.projectId == p
    ensures r.Ok? ==> InFirstOccurrenceOrder(r.value.projects, ProjectIdsOf(Filter(scenes, UsedBy(characterId))))
    ensures r.Ok? ==> (r.value.lastUsed.None? <==> r.value.totalScenes == 0)
    ensures r.Ok? && r.value.lastUsed.Some? ==>
      (forall s :: s in scenes && MentionsCharacter(s, characterId) ==> s.createdAt <= r.value.lastUsed.value)
      && exists s :: s in scenes && MentionsCharacter(s, characterId) && s.createdAt == r.value.lastUsed.value
  {
    var c :- CharacterById(characters, characterId, userId);
    var used := Filter(scenes, UsedBy(characterId));
    Ok(UsageStats(characterId, c.name, |used|, ProjectsOf(used), LastUsed(used)))
  }
}
