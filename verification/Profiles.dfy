/** Inner profiles, the set of them a container holds, and symbolic sealing of a set under a key. */
module Profiles {
  import opened Basics

  datatype ProviderKind = Nextcloud | GoogleDrive | OneDrive | Dropbox | Unknown

  datatype Provider = Provider(kind: ProviderKind, config: string)

  datatype Profile = Profile(profileId: string, alias: string, providers: seq<Provider>, settings: string)

  datatype Kek = Kek(key: nat, salt: nat)

  datatype ProfileSet = ProfileSet(schemaVersion: nat, profiles: seq<Profile>) {

    /** The first position carrying `alias`. */
    function IndexOf(alias: string): (r: Option<nat>)
      ensures r.Some? ==> r.value < |profiles|
    {
      FirstWithAlias(profiles, alias)
    }

    predicate ContainsAlias(alias: string) { IndexOf(alias).Some? }

    function Find(alias: string): Option<Profile>
    {
      var i := IndexOf(alias);
      if i.Some? then Some(profiles[i.value]) else None
    }

    function Aliases(): seq<string>
    {
      seq(|profiles|, i requires 0 <= i < |profiles| => profiles[i].alias)
    }

    /** Replace the first profile that carries the alias of `p`. */
    function Replace(p: Profile): ProfileSet
      requires ContainsAlias(p.alias)
    {
      this.(profiles := profiles[IndexOf(p.alias).value := p])
    }
  }

  function FirstWithAlias(ps: seq<Profile>, alias: string): (r: Option<nat>)
    ensures r.Some? ==> r.value < |ps|
  {
    if ps == [] then None
    else if ps[0].alias == alias then Some(0)
    else
      var rest := FirstWithAlias(ps[1..], alias);
      if rest.Some? then Some(rest.value + 1) else None
  }

  lemma {:induction false} FirstWithAliasIsFirst(ps: seq<Profile>, alias: string)
    ensures var r := FirstWithAlias(ps, alias);
            && (r.Some? <==> exists i | 0 <= i < |ps| :: ps[i].alias == alias)
            && (r.Some? ==> ps[r.value].alias == alias && forall j | 0 <= j < r.value :: ps[j].alias != alias)
  {
    if ps != [] && ps[0].alias != alias {
      FirstWithAliasIsFirst(ps[1..], alias);
      var r := FirstWithAlias(ps[1..], alias);
      forall i | 0 <= i < |ps| && ps[i].alias == alias ensures r.Some? {
        assert ps[1..][i - 1].alias == alias;
      }
      if r.Some? {
        assert ps[r.value + 1].alias == alias;
        forall j | 0 <= j < r.value + 1 ensures ps[j].alias != alias {
          if j > 0 { assert ps[1..][j - 1].alias != alias; }
        }
      }
    }
  }

  lemma {:induction false} FindByAlias(s: ProfileSet, alias: string)
    ensures s.ContainsAlias(alias) <==> alias in s.Aliases()
    ensures s.Find(alias).Some? ==> s.Find(alias).value.alias == alias && s.Find(alias).value in s.profiles
  {
    FirstWithAliasIsFirst(s.profiles, alias);
    if alias in s.Aliases() {
      var i :| 0 <= i < |s.profiles| && s.Aliases()[i] == alias;
      assert s.profiles[i].alias == alias;
    }
    if s.ContainsAlias(alias) {
      assert s.Aliases()[s.IndexOf(alias).value] == alias;
    }
  }

  /** Replacing keeps the number of profiles, the order of the aliases and every profile but the target. */
  lemma {:induction false} ReplaceKeepsTheRest(s: ProfileSet, p: Profile)
    requires s.ContainsAlias(p.alias)
    ensures var t := s.Replace(p);
            && t.Aliases() == s.Aliases() && t.schemaVersion == s.schemaVersion
            && t.Find(p.alias) == Some(p)
            && (forall i | 0 <= i < |s.profiles| && i != s.IndexOf(p.alias).value :: t.profiles[i] == s.profiles[i])
  {
    var t := s.Replace(p);
    FirstWithAliasIsFirst(s.profiles, p.alias);
    FirstWithAliasIsFirst(t.profiles, p.alias);
    assert t.profiles[s.IndexOf(p.alias).value].alias == p.alias;
  }

  lemma {:induction false} ReplaceKeepsOthers(s: ProfileSet, p: Profile, alias: string)
    requires s.ContainsAlias(p.alias) && alias != p.alias
    ensures s.Replace(p).Find(alias) == s.Find(alias)
  {
    var t := s.Replace(p);
    FirstWithAliasIsFirst(s.profiles, p.alias);
    FirstWithAliasIsFirst(s.profiles, alias);
    FirstWithAliasIsFirst(t.profiles, alias);
    assert forall i | 0 <= i < |s.profiles| :: t.profiles[i].alias == s.profiles[i].alias;
  }
}
