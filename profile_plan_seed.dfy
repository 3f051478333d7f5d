/** `create_id_profiles_and_plans`: get-or-create every listed ID profile and
    tariff plan by name, then add each profile-to-plan link of the mapping that
    is not there yet. The script sets only `name` on the `idprofile` and
    `plantarifaire` rows and reads only their `id` (and `plans`), so both are
    modelled by one row type, a serial id and a name; other columns are not
    modelled. */
module ProfilePlanSeed {
  import opened Common

  /** A row of `idprofile` or of `plantarifaire`. */
  datatype NamedRow = NamedRow(id: nat, name: string)

  /** A table of named rows, in primary-key order, with its serial counter. */
  datatype Table = Table(rows: seq<NamedRow>, nextId: nat)

  /** A row of the link table between profiles and plans. */
  datatype Link = Link(profileId: nat, planId: nat)

  /** The three tables the script writes. */
  datatype Catalog = Catalog(profiles: Table, plans: Table, links: seq<Link>)

  // ---------------------------------------------------------------------------
  // The script's constants

  const IdProfiles: seq<string> := [
    "Postpaid", "Postpaid Controlled", "Postpaid Corporate", "Postpaid Corporate Admin",
    "Postpaid Corporate Zero", "Postpaid Corporate Gold", "Prepaid", "Prepaid Pro1",
    "Prepaid Pro2", "Prepaid Pro3", "Prepaid Korana", "Prepaid Freefiber", "Prepaid Aona",
    "Hybrid", "Homenet Postpaid", "Homenet Prepaid", "Ambatovy", "Allowa", "Allowa Plus"
  ]

  const PlanTarifaires: seq<string> := [
    "Orange 60 mode à la seconde", "Orange 60 mode classique", "Orange Max", "Orange Mitsitsy",
    "Orange 3G", "Orange Net Confort", "Intense (Orange Net)", "Corporate Admin",
    "Corporate Premium", "Corporate VIP", "Corporate Gold", "Corporate 250SMS",
    "Corporate BASSAN", "Corporate +", "Corporate 100", "Corporate Equilibre",
    "Corporate Intense", "Corporate Initial", "Corporate Ultra", "Corporate IN",
    "Corporate IN+", "Corporate Star", "Corporate Start", "Corporate SNU IN+",
    "Corporate Zero", "Corporate SMM New", "Forfait Smartphone", "Forfait iPhone",
    "Forfait Corporate SMS", "Forfait Corporate Voix", "Wifiber", "Wifiber Pro",
    "Smart", "Smart +", "Smart Pro2", "Smart Pro6", "Smart Pro12", "Smart Pro25",
    "Smart Pro Ultra", "Smart Pro Prodigy", "Smart SSE", "So Smart", "Homenet",
    "Homenet Postpaid", "Homenet Prepaid", "Hong", "IZY", "Mitsitsy +", "Premium",
    "OPEN", "Pack Touriste", "Freefiber", "Aôonnaaa", "Sera Pro", "Allowa", "Allowa +",
    "Pro V1", "Pro V2", "Pro V3", "CMO Smartphone", "CMO Data", "CMO SMM Nex", "Tandem 0"
  ]

  /** The entries of the `profile_plan_mapping` dict display, as written:
      "Homenet Prepaid" is written twice. */
  const ProfilePlanMapping: seq<(string, seq<string>)> := [
    ("Postpaid Controlled", [
      "Hong", "Corporate Star", "Forfait Smartphone", "Orange 60 mode classique",
      "Orange Max", "Corporate Admin", "Corporate Premium", "Corporate VIP",
      "Corporate 250SMS", "Corporate +", "Corporate BASSAN", "Corporate SMM New",
      "Corporate 100", "Mitsitsy +"]),
    ("Postpaid", [
      "Hong", "Forfait Smartphone", "Orange 60 mode à la seconde", "Orange 60 mode classique",
      "Orange Mitsitsy", "Corporate Admin", "Corporate Premium", "Corporate VIP", "Corporate Gold",
      "Corporate 250SMS", "Forfait iPhone", "Corporate +", "Corporate BASSAN", "Corporate SMM New",
      "Corporate 100", "Intense (Orange Net)", "Orange Net Confort", "Orange 3G", "Premium",
      "Mitsitsy +"]),
    ("Hybrid", [
      "Tandem 0", "CMO Smartphone", "CMO Data", "CMO SMM Nex", "Smart", "Smart +", "Smart SSE",
      "So Smart"]),
    ("Postpaid Corporate Admin", ["Corporate Admin"]),
    ("Postpaid Corporate Gold", ["Corporate Gold"]),
    ("Postpaid Corporate Zero", ["Corporate Zero"]),
    ("Postpaid Corporate", [
      "Corporate Equilibre", "Corporate Intense", "Corporate Initial", "Corporate Start",
      "Corporate IN", "Corporate IN+", "Smart Pro2", "Smart Pro6", "Smart Pro12", "Smart Pro25",
      "Smart Pro Ultra", "Smart Pro Prodigy", "Corporate SNU IN+", "Wifiber"]),
    ("Homenet Postpaid", ["Homenet Postpaid"]),
    ("Homenet Prepaid", ["Homenet Prepaid"]),
    ("Ambatovy", ["Corporate Ultra"]),
    ("Prepaid", ["IZY", "OPEN", "Pack Touriste"]),
    ("Allowa", ["Allowa"]),
    ("Allowa Plus", ["Allowa +"]),
    ("Prepaid Pro1", ["Pro V1"]),
    ("Prepaid Pro2", ["Pro V2"]),
    ("Prepaid Pro3", ["Pro V3"]),
    ("Homenet Prepaid", ["Homenet"]),
    ("Prepaid Korana", ["Sera Pro"]),
    ("Prepaid Freefiber", ["Freefiber"]),
    ("Prepaid Aona", ["Aôonnaaa"])
  ]

  // ---------------------------------------------------------------------------
  // Python dict displays

  /** Index of the first item whose key is `key`. */
  function IndexOfKey<K(==), V>(items: seq<(K, V)>, key: K): (r: Option<nat>)
    ensures r.Some? ==> r.value < |items| && items[r.value].0 == key
    ensures r.Some? ==> forall j :: 0 <= j < r.value ==> items[j].0 != key
    ensures r.None? <==> forall j :: 0 <= j < |items| ==> items[j].0 != key
  {
    FirstMatch(items, (kv: (K, V)) => kv.0 == key)
  }

  /** `d[key] = value` on a dict held as its items in insertion order. */
  function DictSet<K(==), V>(items: seq<(K, V)>, kv: (K, V)): seq<(K, V)> {
    match IndexOfKey(items, kv.0)
    case Some(i) => items[i := kv]
    case None => items + [kv]
  }

  /** The items, in iteration order, of a dict display with the given entries:
      a key written twice keeps the place of its first entry and takes the
      value of its last. */
  function DictItems<K(==), V>(entries: seq<(K, V)>): seq<(K, V)>
    decreases |entries|
  {
    if |entries| == 0 then []
    else DictSet(DictItems(entries[..|entries| - 1]), entries[|entries| - 1])
  }

  /** `d.get(key)`. */
  function Lookup<K(==), V>(items: seq<(K, V)>, key: K): Option<V> {
    match IndexOfKey(items, key)
    case Some(i) => Some(items[i].1)
    case None => None
  }

  /** The value of the last entry written for `key`, if any. */
  function LastWritten<K(==), V>(entries: seq<(K, V)>, key: K): Option<V>
    decreases |entries|
  {
    if |entries| == 0 then None
    else if entries[|entries| - 1].0 == key then Some(entries[|entries| - 1].1)
    else LastWritten(entries[..|entries| - 1], key)
  }

  /** `d[key] = value` then `d.get(k)`: the new value for its key, the old lookup for any other. */
  lemma DictSetLookup<K, V>(items: seq<(K, V)>, kv: (K, V), key: K)
    ensures Lookup(DictSet(items, kv), key) == if kv.0 == key then Some(kv.1) else Lookup(items, key)
  {
    match IndexOfKey(items, kv.0)
    case Some(i) =>
      var after := items[i := kv];
      assert after[i].0 == kv.0;
      if kv.0 == key {
        assert IndexOfKey(after, key) == Some(i);
      } else {
        assert forall j :: 0 <= j < |after| ==> (after[j].0 == key <==> items[j].0 == key);
        assert IndexOfKey(after, key) == IndexOfKey(items, key);
      }
    case None =>
      var after := items + [kv];
      assert after[|items|] == kv;
      assert forall j :: 0 <= j < |items| ==> after[j] == items[j];
      if kv.0 != key {
        assert IndexOfKey(after, key) == IndexOfKey(items, key);
      }
  }

  /** Looking a key up in a dict display gives the value last written for it. */
  lemma {:induction false} DictItemsLookup<K, V>(entries: seq<(K, V)>, key: K)
    ensures Lookup(DictItems(entries), key) == LastWritten(entries, key)
    decreases |entries|
  {
    if |entries| > 0 {
      var init := entries[..|entries| - 1];
      DictItemsLookup(init, key);
      DictSetLookup(DictItems(init), entries[|entries| - 1], key);
    }
  }

  ghost predicate KeysUnique<K, V>(items: seq<(K, V)>) {
    forall i, j :: 0 <= i < j < |items| ==> items[i].0 != items[j].0
  }

  /** `d[key] = value` keeps each key once. */
  lemma DictSetKeysUnique<K, V>(items: seq<(K, V)>, kv: (K, V))
    requires KeysUnique(items)
    ensures KeysUnique(DictSet(items, kv))
  {
    match IndexOfKey(items, kv.0)
    case Some(k) =>
      var after := items[k := kv];
      assert forall j :: 0 <= j < |after| ==> after[j].0 == items[j].0;
    case None =>
      var after := items + [kv];
      forall i, j | 0 <= i < j < |after|
        ensures after[i].0 != after[j].0
      {
        assert after[i] == items[i];
        if j < |items| {
          assert after[j] == items[j];
        } else {
          assert after[j] == kv;
        }
      }
  }

  /** A dict display yields each key once. */
  lemma {:induction false} DictItemsKeysUnique<K, V>(entries: seq<(K, V)>)
    ensures KeysUnique(DictItems(entries))
    decreases |entries|
  {
    if |entries| > 0 {
      var init := entries[..|entries| - 1];
      DictItemsKeysUnique(init);
      DictSetKeysUnique(DictItems(init), entries[|entries| - 1]);
    }
  }

  /** The profile "Homenet Prepaid" is mapped to ["Homenet"] alone: the later
      entry for it replaces the earlier ["Homenet Prepaid"]. */
  lemma HomenetPrepaidMapping()
    ensures Lookup(DictItems(ProfilePlanMapping), "Homenet Prepaid") == Some(["Homenet"])
  {
    DictItemsLookup(ProfilePlanMapping, "Homenet Prepaid");
    var m := ProfilePlanMapping;
    assert m[19].0 != "Homenet Prepaid" && m[18].0 != "Homenet Prepaid" && m[17].0 != "Homenet Prepaid";
    assert m[16] == ("Homenet Prepaid", ["Homenet"]);
    assert LastWritten(m[..17], "Homenet Prepaid") == Some(["Homenet"]);
    assert m[..20] == m;
    assert m[..20][..19] == m[..19] && m[..19][..18] == m[..18] && m[..18][..17] == m[..17];
  }

  // ---------------------------------------------------------------------------
  // Get-or-create of named rows

  predicate HasName(rows: seq<NamedRow>, name: string) {
    exists i :: 0 <= i < |rows| && rows[i].name == name
  }

  /** Index of the first row named `name` (`select ... where name == ... .first()`). */
  function IndexOfName(rows: seq<NamedRow>, name: string): (r: Option<nat>)
    ensures r.Some? ==> r.value < |rows| && rows[r.value].name == name
    ensures r.Some? ==> forall j :: 0 <= j < r.value ==> rows[j].name != name
    ensures r.None? <==> !HasName(rows, name)
  {
    FirstMatch(rows, (row: NamedRow) => row.name == name)
  }

  /** Appending a row leaves every earlier first match where it was. */
  lemma IndexOfNameAppend(rows: seq<NamedRow>, extra: NamedRow, name: string)
    ensures IndexOfName(rows + [extra], name)
         == if HasName(rows, name) then IndexOfName(rows, name)
            else if extra.name == name then Some(|rows|) else None
  {
    var all := rows + [extra];
    assert forall j :: 0 <= j < |rows| ==> all[j] == rows[j];
    assert all[|rows|] == extra;
    if HasName(rows, name) {
      var i := IndexOfName(rows, name).value;
      assert all[i].name == name;
    } else if extra.name == name {
      assert HasName(all, name);
    }
  }

  /** The id of the first row named `name`. */
  function IdOf(t: Table, name: string): nat
    requires HasName(t.rows, name)
  {
    t.rows[IndexOfName(t.rows, name).value].id
  }

  /** One iteration of the get-or-create loop: reuse the first row with the
      name, or insert one with the next serial id. */
  function GetOrCreate(t: Table, name: string): Table {
    if HasName(t.rows, name) then t
    else Table(t.rows + [NamedRow(t.nextId, name)], t.nextId + 1)
  }

  /** The get-or-create loop over a list of names. */
  function GetOrCreateAll(t: Table, names: seq<string>): Table
    decreases |names|
  {
    if |names| == 0 then t
    else GetOrCreate(GetOrCreateAll(t, names[..|names| - 1]), names[|names| - 1])
  }

  /** `profile_dict` / `plan_dict` after the loop: every listed name to the id
      of its row. */
  function IdsByName(t: Table, names: seq<string>): map<string, nat> {
    map name | name in names && HasName(t.rows, name) :: IdOf(t, name)
  }

  /** Ids below the serial counter and increasing in row order. */
  predicate TableValid(t: Table) {
    && (forall i :: 0 <= i < |t.rows| ==> t.rows[i].id < t.nextId)
    && (forall i, j :: 0 <= i < j < |t.rows| ==> t.rows[i].id < t.rows[j].id)
  }

  /** The loop keeps every existing row, and only inserts rows for listed
      names that had none, one row per name, with consecutive fresh ids. */
  lemma {:induction false} GetOrCreateAllGrows(t: Table, names: seq<string>)
    ensures var r := GetOrCreateAll(t, names);
            && |t.rows| <= |r.rows| && r.rows[..|t.rows|] == t.rows
            && r.nextId == t.nextId + (|r.rows| - |t.rows|)
            && (forall i :: |t.rows| <= i < |r.rows| ==> r.rows[i].id == t.nextId + (i - |t.rows|))
            && (forall i :: |t.rows| <= i < |r.rows| ==> r.rows[i].name in names && !HasName(t.rows, r.rows[i].name))
            && (forall i, j :: |t.rows| <= i < j < |r.rows| ==> r.rows[i].name != r.rows[j].name)
    decreases |names|
  {
    if |names| > 0 {
      var init := names[..|names| - 1];
      var last := names[|names| - 1];
      var mid := GetOrCreateAll(t, init);
      GetOrCreateAllGrows(t, init);
      assert forall n :: n in init ==> n in names;
      if !HasName(mid.rows, last) {
        var r := GetOrCreateAll(t, names);
        assert r.rows == mid.rows + [NamedRow(mid.nextId, last)];
        assert forall i :: 0 <= i < |mid.rows| ==> r.rows[i] == mid.rows[i];
        assert r.rows[..|t.rows|] == mid.rows[..|t.rows|];
        assert !HasName(t.rows, last) by {
          forall i | 0 <= i < |t.rows|
            ensures t.rows[i].name != last
          {
            assert t.rows[i] == mid.rows[i];
          }
        }
      }
    }
  }

  /** After the loop every listed name has a row. */
  lemma {:induction false} GetOrCreateAllCovers(t: Table, names: seq<string>)
    ensures forall name :: name in names ==> HasName(GetOrCreateAll(t, names).rows, name)
    decreases |names|
  {
    if |names| > 0 {
      var init := names[..|names| - 1];
      var last := names[|names| - 1];
      var mid := GetOrCreateAll(t, init);
      GetOrCreateAllCovers(t, init);
      assert names == init + [last];
      if !HasName(mid.rows, last) {
        var r := GetOrCreateAll(t, names);
        assert r.rows[|mid.rows|].name == last;
        forall name | name in init
          ensures HasName(r.rows, name)
        {
          var i :| 0 <= i < |mid.rows| && mid.rows[i].name == name;
          assert r.rows[i] == mid.rows[i];
        }
      }
    }
  }

  /** The loop keeps ids below the counter and increasing. */
  lemma GetOrCreateAllValid(t: Table, names: seq<string>)
    requires TableValid(t)
    ensures TableValid(GetOrCreateAll(t, names))
  {
    GetOrCreateAllGrows(t, names);
    var r := GetOrCreateAll(t, names);
    forall i | 0 <= i < |t.rows|
      ensures r.rows[i] == t.rows[i]
    {
      assert r.rows[..|t.rows|][i] == r.rows[i];
    }
  }

  /** Once every listed name has a row, the loop changes nothing. */
  lemma {:induction false} GetOrCreateAllStable(t: Table, names: seq<string>)
    requires forall name :: name in names ==> HasName(t.rows, name)
    ensures GetOrCreateAll(t, names) == t
    decreases |names|
  {
    if |names| > 0 {
      var init := names[..|names| - 1];
      assert forall n :: n in init ==> n in names;
      GetOrCreateAllStable(t, init);
      assert names[|names| - 1] in names;
    }
  }

  /** Running the loop twice over the same names is running it once. */
  lemma GetOrCreateAllIdempotent(t: Table, names: seq<string>)
    ensures var r := GetOrCreateAll(t, names);
            GetOrCreateAll(r, names) == r
  {
    GetOrCreateAllCovers(t, names);
    GetOrCreateAllStable(GetOrCreateAll(t, names), names);
  }

  /** One get-or-create step extends the name-to-id dict by the one name. */
  lemma IdsByNameStep(t: Table, names: seq<string>, name: string)
    requires forall n :: n in names ==> HasName(t.rows, n)
    ensures var r := GetOrCreate(t, name);
            && HasName(r.rows, name)
            && (forall n :: HasName(t.rows, n) ==> HasName(r.rows, n))
            && IdsByName(r, names + [name])
               == IdsByName(t, names)[name := if HasName(t.rows, name) then IdOf(t, name) else t.nextId]
  {
    var r := GetOrCreate(t, name);
    if !HasName(t.rows, name) {
      var row := NamedRow(t.nextId, name);
      forall n | HasName(t.rows, n)
        ensures HasName(r.rows, n) && IdOf(r, n) == IdOf(t, n)
      {
        IndexOfNameAppend(t.rows, row, n);
        var i := IndexOfName(t.rows, n).value;
        assert r.rows[i] == t.rows[i];
      }
      IndexOfNameAppend(t.rows, row, name);
    }
    var lhs := IdsByName(r, names + [name]);
    var rhs := IdsByName(t, names)[name := if HasName(t.rows, name) then IdOf(t, name) else t.nextId];
    assert lhs.Keys == rhs.Keys;
    assert forall n :: n in lhs ==> lhs[n] == rhs[n];
  }

  /** The two get-or-create loops of the script, on one table: the table after
      the loop and the dict of the ids it found or created. */
  method FillTable(t: Table, names: seq<string>) returns (result: Table, ids: map<string, nat>)
    ensures result == GetOrCreateAll(t, names)
    ensures ids == IdsByName(result, names)
  {
    result := t;
    ids := map[];
    for i := 0 to |names|
      invariant result == GetOrCreateAll(t, names[..i])
      invariant forall n :: n in names[..i] ==> HasName(result.rows, n)
      invariant ids == IdsByName(result, names[..i])
    {
      var name := names[i];
      assert names[..i + 1] == names[..i] + [name];
      IdsByNameStep(result, names[..i], name);
      var found := IndexOfName(result.rows, name);
      var id: nat;
      if found.None? {
        id := result.nextId;
        result := Table(result.rows + [NamedRow(id, name)], result.nextId + 1);
      } else {
        id := result.rows[found.value].id;
      }
      ids := ids[name := id];
    }
    assert names[..|names|] == names;
  }

  // ---------------------------------------------------------------------------
  // Links

  /** The (profile, plan) name pairs of `profile_plan_mapping.items()`, in
      iteration order. */
  function Expand(profile: string, plans: seq<string>): seq<(string, string)> {
    seq(|plans|, k requires 0 <= k < |plans| => (profile, plans[k]))
  }

  function Pairs(items: seq<(string, seq<string>)>): seq<(string, string)>
    decreases |items|
  {
    if |items| == 0 then []
    else Pairs(items[..|items| - 1]) + Expand(items[|items| - 1].0, items[|items| - 1].1)
  }

  /** Both names of the pair are in the dicts. */
  predicate Known(profileIds: map<string, nat>, planIds: map<string, nat>, pair: (string, string)) {
    pair.0 in profileIds && pair.1 in planIds
  }

  function LinkOf(profileIds: map<string, nat>, planIds: map<string, nat>, pair: (string, string)): Link
    requires Known(profileIds, planIds, pair)
  {
    Link(profileIds[pair.0], planIds[pair.1])
  }

  /** One inner iteration: skip an unknown name, add the link unless present. */
  function LinkStep(links: seq<Link>, profileIds: map<string, nat>, planIds: map<string, nat>,
                    pair: (string, string)): seq<Link>
  {
    if Known(profileIds, planIds, pair) && LinkOf(profileIds, planIds, pair) !in links
    then links + [LinkOf(profileIds, planIds, pair)]
    else links
  }

  function LinkAll(links: seq<Link>, profileIds: map<string, nat>, planIds: map<string, nat>,
                   pairs: seq<(string, string)>): seq<Link>
    decreases |pairs|
  {
    if |pairs| == 0 then links
    else LinkStep(LinkAll(links, profileIds, planIds, pairs[..|pairs| - 1]), profileIds, planIds, pairs[|pairs| - 1])
  }

  predicate NoDuplicates(links: seq<Link>) {
    forall i, j :: 0 <= i < j < |links| ==> links[i] != links[j]
  }

  lemma LinkAllSnoc(links: seq<Link>, profileIds: map<string, nat>, planIds: map<string, nat>,
                    pairs: seq<(string, string)>, pair: (string, string))
    ensures LinkAll(links, profileIds, planIds, pairs + [pair])
         == LinkStep(LinkAll(links, profileIds, planIds, pairs), profileIds, planIds, pair)
  {
    assert (pairs + [pair])[..|pairs|] == pairs;
  }

  /** The link loop keeps every existing link, adds only links of known pairs
      that were missing, and never adds one twice. */
  lemma {:induction false} LinkAllGrows(links: seq<Link>, profileIds: map<string, nat>,
                                        planIds: map<string, nat>, pairs: seq<(string, string)>)
    ensures var r := LinkAll(links, profileIds, planIds, pairs);
            && |links| <= |r| && r[..|links|] == links
            && (forall l :: l in r ==> l in links || exists k :: 0 <= k < |pairs| && Known(profileIds, planIds, pairs[k])
                                                                && LinkOf(profileIds, planIds, pairs[k]) == l)
            && (NoDuplicates(links) ==> NoDuplicates(r))
    decreases |pairs|
  {
    if |pairs| > 0 {
      var init := pairs[..|pairs| - 1];
      var mid := LinkAll(links, profileIds, planIds, init);
      LinkAllGrows(links, profileIds, planIds, init);
      var r := LinkAll(links, profileIds, planIds, pairs);
      forall l | l in r
        ensures l in links || exists k :: 0 <= k < |pairs| && Known(profileIds, planIds, pairs[k])
                                           && LinkOf(profileIds, planIds, pairs[k]) == l
      {
        if l in mid {
          if l !in links {
            var k :| 0 <= k < |init| && Known(profileIds, planIds, init[k]) && LinkOf(profileIds, planIds, init[k]) == l;
            assert pairs[k] == init[k];
          }
        } else {
          assert pairs[|pairs| - 1] == pairs[|pairs| - 1];
        }
      }
      if r != mid {
        assert r[..|links|] == mid[..|links|];
      }
    }
  }

  /** After the link loop, every known pair of the mapping is linked. */
  lemma {:induction false} LinkAllComplete(links: seq<Link>, profileIds: map<string, nat>,
                                           planIds: map<string, nat>, pairs: seq<(string, string)>)
    ensures forall k :: 0 <= k < |pairs| && Known(profileIds, planIds, pairs[k]) ==>
              LinkOf(profileIds, planIds, pairs[k]) in LinkAll(links, profileIds, planIds, pairs)
    decreases |pairs|
  {
    if |pairs| > 0 {
      var init := pairs[..|pairs| - 1];
      LinkAllComplete(links, profileIds, planIds, init);
      var mid := LinkAll(links, profileIds, planIds, init);
      var r := LinkAll(links, profileIds, planIds, pairs);
      assert forall l :: l in mid ==> l in r;
      assert forall k :: 0 <= k < |init| ==> pairs[k] == init[k];
    }
  }

  /** When every known pair is already linked, the link loop changes nothing. */
  lemma {:induction false} LinkAllStable(links: seq<Link>, profileIds: map<string, nat>,
                                         planIds: map<string, nat>, pairs: seq<(string, string)>)
    requires forall k :: 0 <= k < |pairs| && Known(profileIds, planIds, pairs[k]) ==>
               LinkOf(profileIds, planIds, pairs[k]) in links
    ensures LinkAll(links, profileIds, planIds, pairs) == links
    decreases |pairs|
  {
    if |pairs| > 0 {
      var init := pairs[..|pairs| - 1];
      assert forall k :: 0 <= k < |init| ==> init[k] == pairs[k];
      LinkAllStable(links, profileIds, planIds, init);
    }
  }

  /** Pairs whose profile is unknown add nothing: the outer `continue`. */
  lemma {:induction false} LinkAllSkipsUnknownProfile(links: seq<Link>, profileIds: map<string, nat>,
                                                      planIds: map<string, nat>, pairs: seq<(string, string)>,
                                                      profile: string, plans: seq<string>)
    requires profile !in profileIds
    ensures LinkAll(links, profileIds, planIds, pairs + Expand(profile, plans))
         == LinkAll(links, profileIds, planIds, pairs)
    decreases |plans|
  {
    if |plans| > 0 {
      var init := plans[..|plans| - 1];
      assert pairs + Expand(profile, plans)
          == (pairs + Expand(profile, init)) + [(profile, plans[|plans| - 1])];
      LinkAllSnoc(links, profileIds, planIds, pairs + Expand(profile, init), (profile, plans[|plans| - 1]));
      LinkAllSkipsUnknownProfile(links, profileIds, planIds, pairs, profile, init);
    } else {
      assert pairs + Expand(profile, plans) == pairs;
    }
  }

  /** Every pair of the mapping's items is in `Pairs`. */
  lemma {:induction false} PairsContains(items: seq<(string, seq<string>)>, i: nat, j: nat)
    requires i < |items| && j < |items[i].1|
    ensures (items[i].0, items[i].1[j]) in Pairs(items)
    decreases |items|
  {
    var init := items[..|items| - 1];
    var last := items[|items| - 1];
    assert Pairs(items) == Pairs(init) + Expand(last.0, last.1);
    if i == |items| - 1 {
      assert Expand(last.0, last.1)[j] == (items[i].0, items[i].1[j]);
    } else {
      assert init[i] == items[i];
      PairsContains(init, i, j);
    }
  }

  /** Every pair of `Pairs` comes from some entry of the items: the converse
      of `PairsContains`. */
  lemma {:induction false} PairsFrom(items: seq<(string, seq<string>)>, k: nat)
    requires k < |Pairs(items)|
    ensures exists i, j :: 0 <= i < |items| && 0 <= j < |items[i].1| && Pairs(items)[k] == (items[i].0, items[i].1[j])
    decreases |items|
  {
    var init := items[..|items| - 1];
    var last := items[|items| - 1];
    assert Pairs(items) == Pairs(init) + Expand(last.0, last.1);
    if k < |Pairs(init)| {
      PairsFrom(init, k);
      var i, j :| 0 <= i < |init| && 0 <= j < |init[i].1| && Pairs(init)[k] == (init[i].0, init[i].1[j]);
      assert init[i] == items[i];
    } else {
      var j := k - |Pairs(init)|;
      assert Pairs(items)[k] == Expand(last.0, last.1)[j];
      assert Pairs(items)[k] == (items[|items| - 1].0, items[|items| - 1].1[j]);
    }
  }

  /** In a dict's items, the pairs visited for a profile are exactly drawn from
      the list the dict holds for it: a profile is paired with no plan outside
      its looked-up value, and a profile that is not a key with none at all. */
  lemma PairsOfKey(items: seq<(string, seq<string>)>, profile: string)
    requires KeysUnique(items)
    ensures forall pair :: pair in Pairs(items) && pair.0 == profile ==>
              Lookup(items, profile).Some? && pair.1 in Lookup(items, profile).value
  {
    forall pair | pair in Pairs(items) && pair.0 == profile
      ensures Lookup(items, profile).Some? && pair.1 in Lookup(items, profile).value
    {
      var k :| 0 <= k < |Pairs(items)| && Pairs(items)[k] == pair;
      PairsFrom(items, k);
      var i, j :| 0 <= i < |items| && 0 <= j < |items[i].1| && Pairs(items)[k] == (items[i].0, items[i].1[j]);
      assert items[i].1[j] in items[i].1;
    }
  }

  /** The nested link loops of the script, `continue` on an unknown profile or plan. */
  method LinkMapping(links: seq<Link>, profileIds: map<string, nat>, planIds: map<string, nat>,
                     items: seq<(string, seq<string>)>) returns (result: seq<Link>)
    ensures result == LinkAll(links, profileIds, planIds, Pairs(items))
  {
    result := links;
    for i := 0 to |items|
      invariant result == LinkAll(links, profileIds, planIds, Pairs(items[..i]))
    {
      var profileName := items[i].0;
      var planNames := items[i].1;
      assert items[..i + 1][..i] == items[..i];
      assert Pairs(items[..i + 1]) == Pairs(items[..i]) + Expand(profileName, planNames);
      if profileName !in profileIds {
        LinkAllSkipsUnknownProfile(links, profileIds, planIds, Pairs(items[..i]), profileName, planNames);
        continue;
      }
      var profileId := profileIds[profileName];
      assert Expand(profileName, planNames[..0]) == [];
      assert Pairs(items[..i]) + [] == Pairs(items[..i]);
      for j := 0 to |planNames|
        invariant result == LinkAll(links, profileIds, planIds, Pairs(items[..i]) + Expand(profileName, planNames[..j]))
      {
        var planName := planNames[j];
        assert Pairs(items[..i]) + Expand(profileName, planNames[..j + 1])
            == (Pairs(items[..i]) + Expand(profileName, planNames[..j])) + [(profileName, planName)];
        LinkAllSnoc(links, profileIds, planIds, Pairs(items[..i]) + Expand(profileName, planNames[..j]),
                    (profileName, planName));
        if planName !in planIds {
          continue;
        }
        var link := Link(profileId, planIds[planName]);
        if link !in result {
          result := result + [link];
        }
      }
      assert planNames[..|planNames|] == planNames;
    }
    assert items[..|items|] == items;
  }

  // ---------------------------------------------------------------------------
  // The whole script

  /** The tables after the script, given the tables before. */
  function Seed(c: Catalog, profileNames: seq<string>, planNames: seq<string>,
                items: seq<(string, seq<string>)>): Catalog
  {
    var profiles := GetOrCreateAll(c.profiles, profileNames);
    var plans := GetOrCreateAll(c.plans, planNames);
    Catalog(profiles, plans,
            LinkAll(c.links, IdsByName(profiles, profileNames), IdsByName(plans, planNames), Pairs(items)))
  }

  /** Integrity of the three tables: serial ids, no link twice, every link
      between an existing profile and an existing plan. */
  predicate CatalogValid(c: Catalog) {
    && TableValid(c.profiles) && TableValid(c.plans) && NoDuplicates(c.links)
    && forall l :: l in c.links ==>
         (exists i :: 0 <= i < |c.profiles.rows| && c.profiles.rows[i].id == l.profileId)
         && (exists i :: 0 <= i < |c.plans.rows| && c.plans.rows[i].id == l.planId)
  }

  /** The ids in the dicts are ids of rows of the table. */
  lemma IdsByNameResolve(t: Table, names: seq<string>, name: string)
    requires name in IdsByName(t, names)
    ensures exists i :: 0 <= i < |t.rows| && t.rows[i].id == IdsByName(t, names)[name]
  {
    var i := IndexOfName(t.rows, name).value;
    assert t.rows[i].id == IdOf(t, name);
  }

  /** A table's rows survive the loop, so an id found before is still found. */
  lemma IdStillThere(t: Table, names: seq<string>, id: nat)
    requires exists i :: 0 <= i < |t.rows| && t.rows[i].id == id
    ensures exists i :: 0 <= i < |GetOrCreateAll(t, names).rows| && GetOrCreateAll(t, names).rows[i].id == id
  {
    GetOrCreateAllGrows(t, names);
    var i :| 0 <= i < |t.rows| && t.rows[i].id == id;
    var r := GetOrCreateAll(t, names);
    assert r.rows[..|t.rows|][i] == r.rows[i];
  }

  /** The script keeps the tables' integrity. */
  lemma SeedPreservesValid(c: Catalog, profileNames: seq<string>, planNames: seq<string>,
                           items: seq<(string, seq<string>)>)
    requires CatalogValid(c)
    ensures CatalogValid(Seed(c, profileNames, planNames, items))
  {
    var s := Seed(c, profileNames, planNames, items);
    var profileIds := IdsByName(s.profiles, profileNames);
    var planIds := IdsByName(s.plans, planNames);
    GetOrCreateAllValid(c.profiles, profileNames);
    GetOrCreateAllValid(c.plans, planNames);
    LinkAllGrows(c.links, profileIds, planIds, Pairs(items));
    forall l | l in s.links
      ensures (exists i :: 0 <= i < |s.profiles.rows| && s.profiles.rows[i].id == l.profileId)
              && (exists i :: 0 <= i < |s.plans.rows| && s.plans.rows[i].id == l.planId)
    {
      if l in c.links {
        IdStillThere(c.profiles, profileNames, l.profileId);
        IdStillThere(c.plans, planNames, l.planId);
      } else {
        var k :| 0 <= k < |Pairs(items)| && Known(profileIds, planIds, Pairs(items)[k])
                 && LinkOf(profileIds, planIds, Pairs(items)[k]) == l;
        IdsByNameResolve(s.profiles, profileNames, Pairs(items)[k].0);
        IdsByNameResolve(s.plans, planNames, Pairs(items)[k].1);
      }
    }
  }

  /** After the script, each listed profile and plan has a row, and for every
      entry of the mapping whose profile and plan are both listed, the first
      row of that profile is linked to the first row of that plan. */
  lemma SeedLinksMapping(c: Catalog, profileNames: seq<string>, planNames: seq<string>,
                         items: seq<(string, seq<string>)>, i: nat, j: nat)
    requires i < |items| && j < |items[i].1|
    requires items[i].0 in profileNames && items[i].1[j] in planNames
    ensures var s := Seed(c, profileNames, planNames, items);
            && HasName(s.profiles.rows, items[i].0) && HasName(s.plans.rows, items[i].1[j])
            && Link(IdOf(s.profiles, items[i].0), IdOf(s.plans, items[i].1[j])) in s.links
  {
    var s := Seed(c, profileNames, planNames, items);
    GetOrCreateAllCovers(c.profiles, profileNames);
    GetOrCreateAllCovers(c.plans, planNames);
    var profileIds := IdsByName(s.profiles, profileNames);
    var planIds := IdsByName(s.plans, planNames);
    PairsContains(items, i, j);
    var k :| 0 <= k < |Pairs(items)| && Pairs(items)[k] == (items[i].0, items[i].1[j]);
    LinkAllComplete(c.links, profileIds, planIds, Pairs(items));
  }

  /** Running the script twice is running it once: on the second run every
      name is found and every link exists. */
  lemma SeedIdempotent(c: Catalog, profileNames: seq<string>, planNames: seq<string>,
                       items: seq<(string, seq<string>)>)
    ensures var s := Seed(c, profileNames, planNames, items);
            Seed(s, profileNames, planNames, items) == s
  {
    var s := Seed(c, profileNames, planNames, items);
    GetOrCreateAllIdempotent(c.profiles, profileNames);
    GetOrCreateAllIdempotent(c.plans, planNames);
    var profileIds := IdsByName(s.profiles, profileNames);
    var planIds := IdsByName(s.plans, planNames);
    LinkAllComplete(c.links, profileIds, planIds, Pairs(items));
    LinkAllStable(s.links, profileIds, planIds, Pairs(items));
  }

  /** A profile the dict maps to a list holding a plan gets linked to it, when
      both names are listed. */
  lemma SeedLinksLookup(c: Catalog, profileNames: seq<string>, planNames: seq<string>,
                        items: seq<(string, seq<string>)>, profile: string, plans: seq<string>, j: nat)
    requires Lookup(items, profile) == Some(plans) && j < |plans|
    requires profile in profileNames && plans[j] in planNames
    ensures var s := Seed(c, profileNames, planNames, items);
            && HasName(s.profiles.rows, profile) && HasName(s.plans.rows, plans[j])
            && Link(IdOf(s.profiles, profile), IdOf(s.plans, plans[j])) in s.links
  {
    var i := IndexOfKey(items, profile).value;
    SeedLinksMapping(c, profileNames, planNames, items, i, j);
  }

  /** With the script's own constants, the profile "Homenet Prepaid" ends up
      linked to the plan "Homenet", from whatever tables it starts. */
  lemma HomenetPrepaidLinkedToHomenet(c: Catalog)
    ensures var s := Seed(c, IdProfiles, PlanTarifaires, DictItems(ProfilePlanMapping));
            && HasName(s.profiles.rows, "Homenet Prepaid") && HasName(s.plans.rows, "Homenet")
            && Link(IdOf(s.profiles, "Homenet Prepaid"), IdOf(s.plans, "Homenet")) in s.links
  {
    HomenetPrepaidMapping();
    assert IdProfiles[15] == "Homenet Prepaid";
    assert PlanTarifaires[42] == "Homenet";
    SeedLinksLookup(c, IdProfiles, PlanTarifaires, DictItems(ProfilePlanMapping), "Homenet Prepaid", ["Homenet"], 0);
  }

  /** Distinct names of a valid table have distinct ids. */
  lemma IdOfInjective(t: Table, a: string, b: string)
    requires TableValid(t) && HasName(t.rows, a) && HasName(t.rows, b)
    requires IdOf(t, a) == IdOf(t, b)
    ensures a == b
  {
  }

  /** No pair of the items yields the link of a profile to a plan outside its
      dict value. */
  lemma UnmappedPairNotLinked(profiles: Table, plans: Table, profileNames: seq<string>, planNames: seq<string>,
                              items: seq<(string, seq<string>)>, profile: string, plan: string, k: nat)
    requires TableValid(profiles) && TableValid(plans) && KeysUnique(items)
    requires HasName(profiles.rows, profile) && HasName(plans.rows, plan)
    requires Lookup(items, profile).Some? ==> plan !in Lookup(items, profile).value
    requires k < |Pairs(items)| && Known(IdsByName(profiles, profileNames), IdsByName(plans, planNames), Pairs(items)[k])
    ensures LinkOf(IdsByName(profiles, profileNames), IdsByName(plans, planNames), Pairs(items)[k])
         != Link(IdOf(profiles, profile), IdOf(plans, plan))
  {
    var pair := Pairs(items)[k];
    if LinkOf(IdsByName(profiles, profileNames), IdsByName(plans, planNames), pair)
       == Link(IdOf(profiles, profile), IdOf(plans, plan)) {
      IdOfInjective(profiles, pair.0, profile);
      IdOfInjective(plans, pair.1, plan);
      PairsOfKey(items, profile);
      assert false;
    }
  }

  /** The script links a profile to no plan outside the list its dict value
      holds (to none when the profile is not a key): such a link is in the
      tables afterwards only if it was there before. */
  lemma SeedAddsOnlyMappedLinks(c: Catalog, profileNames: seq<string>, planNames: seq<string>,
                                items: seq<(string, seq<string>)>, profile: string, plan: string)
    requires TableValid(c.profiles) && TableValid(c.plans) && KeysUnique(items)
    requires profile in profileNames && plan in planNames
    requires Lookup(items, profile).Some? ==> plan !in Lookup(items, profile).value
    ensures var s := Seed(c, profileNames, planNames, items);
            && HasName(s.profiles.rows, profile) && HasName(s.plans.rows, plan)
            && (Link(IdOf(s.profiles, profile), IdOf(s.plans, plan)) in s.links
                ==> Link(IdOf(s.profiles, profile), IdOf(s.plans, plan)) in c.links)
  {
    var profiles := GetOrCreateAll(c.profiles, profileNames);
    var plans := GetOrCreateAll(c.plans, planNames);
    GetOrCreateAllCovers(c.profiles, profileNames);
    GetOrCreateAllCovers(c.plans, planNames);
    GetOrCreateAllValid(c.profiles, profileNames);
    GetOrCreateAllValid(c.plans, planNames);
    var profileIds := IdsByName(profiles, profileNames);
    var planIds := IdsByName(plans, planNames);
    var links := LinkAll(c.links, profileIds, planIds, Pairs(items));
    assert Seed(c, profileNames, planNames, items) == Catalog(profiles, plans, links);
    var l := Link(IdOf(profiles, profile), IdOf(plans, plan));
    LinkAllGrows(c.links, profileIds, planIds, Pairs(items));
    if l in links && l !in c.links {
      var k :| 0 <= k < |Pairs(items)| && Known(profileIds, planIds, Pairs(items)[k])
               && LinkOf(profileIds, planIds, Pairs(items)[k]) == l;
      UnmappedPairNotLinked(profiles, plans, profileNames, planNames, items, profile, plan, k);
      assert false;
    }
  }

  /** With the script's own constants, the profile "Homenet Prepaid" is never
      linked to the plan "Homenet Prepaid": the later entry for the key
      replaced the one that named it. */
  lemma HomenetPrepaidNotLinkedToHomenetPrepaid(c: Catalog)
    requires CatalogValid(c)
    ensures var s := Seed(c, IdProfiles, PlanTarifaires, DictItems(ProfilePlanMapping));
            && HasName(s.profiles.rows, "Homenet Prepaid") && HasName(s.plans.rows, "Homenet Prepaid")
            && (Link(IdOf(s.profiles, "Homenet Prepaid"), IdOf(s.plans, "Homenet Prepaid")) in s.links
                ==> Link(IdOf(s.profiles, "Homenet Prepaid"), IdOf(s.plans, "Homenet Prepaid")) in c.links)
  {
    HomenetPrepaidMapping();
    DictItemsKeysUnique(ProfilePlanMapping);
    assert IdProfiles[15] == "Homenet Prepaid";
    assert PlanTarifaires[44] == "Homenet Prepaid";
    assert "Homenet Prepaid" !in ["Homenet"];
    SeedAddsOnlyMappedLinks(c, IdProfiles, PlanTarifaires, DictItems(ProfilePlanMapping),
                            "Homenet Prepaid", "Homenet Prepaid");
  }

  // ---------------------------------------------------------------------------
  // The tables as the script's session changes them

  class ReferenceStore {
    var profiles: Table
    var plans: Table
    var links: seq<Link>

    function State(): Catalog
      reads this
    {
      Catalog(profiles, plans, links)
    }

    constructor ()
      ensures State() == Catalog(Table([], 1), Table([], 1), [])
    {
      profiles := Table([], 1);
      plans := Table([], 1);
      links := [];
    }

    /** The script's body, for given lists and mapping items. */
    method CreateIdProfilesAndPlansFrom(profileNames: seq<string>, planNames: seq<string>,
                                        items: seq<(string, seq<string>)>)
      modifies this
      ensures State() == Seed(old(State()), profileNames, planNames, items)
    {
      var profileDict, planDict;
      profiles, profileDict := FillTable(profiles, profileNames);
      plans, planDict := FillTable(plans, planNames);
      links := LinkMapping(links, profileDict, planDict, items);
    }

    /** `create_id_profiles_and_plans()` with the script's constants. */
    method CreateIdProfilesAndPlans()
      modifies this
      ensures State() == Seed(old(State()), IdProfiles, PlanTarifaires, DictItems(ProfilePlanMapping))
    {
      CreateIdProfilesAndPlansFrom(IdProfiles, PlanTarifaires, DictItems(ProfilePlanMapping));
    }
  }
}
