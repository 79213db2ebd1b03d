/**
  The tags page: a search by tag name, and the shown tags grouped under the
  upper-cased first character of their names, groups listed in key order.
 */
module TagsPage {
  import opened Seqs
  import opened Text
  import opened Types

  datatype PageState = PageState(tags: seq<Tag>, filteredTags: seq<Tag>)

  predicate NameMatches(t: Tag, query: string) {
    ContainsIgnoringCase(t.name, query)
  }

  function Named(query: string): Tag -> bool {
    (t: Tag) => NameMatches(t, query)
  }

  /**
    Searching: an empty query shows every tag; otherwise exactly the tags whose
    name contains the query, ignoring case, in their order.
   */
  function HandleSearch(st: PageState, query: string): (r: PageState)
    ensures r.tags == st.tags
    ensures query == [] ==> r.filteredTags == st.tags
    ensures query != [] ==> r.filteredTags == Filter(st.tags, Named(query))
    ensures forall t :: t in r.filteredTags <==> t in st.tags && NameMatches(t, query)
  {
    if query == [] then
      assert forall t :: NameMatches(t, query) by {
        forall t: Tag
          ensures NameMatches(t, query)
        {
          ContainsEmpty(Lower(t.name));
        }
      }
      st.(filteredTags := st.tags)
    else st.(filteredTags := Filter(st.tags, Named(query)))
  }

  /** The group a name is shown under: its first character upper-cased, or "" for an empty name. */
  function GroupKey(name: string): (r: string)
    ensures r == [] <==> name == []
    ensures name != [] ==> r == [UpperChar(name[0])]
  {
    if name == [] then "" else [UpperChar(name[0])]
  }

  /** Names whose first letters differ only in ASCII case fall in the same group. */
  lemma GroupKeyIgnoresCase(a: string, b: string)
    requires a != [] && b != [] && LowerChar(a[0]) == LowerChar(b[0])
    ensures GroupKey(a) == GroupKey(b)
  {
  }

  function InGroup(key: string): Tag -> bool {
    (t: Tag) => GroupKey(t.name) == key
  }

  /** The number of tags in the groups named by `keys`, a key counted once per occurrence. */
  function SumSizes(keys: seq<string>, groups: map<string, seq<Tag>>): nat
    decreases |keys|
  {
    if keys == [] then 0
    else (if keys[0] in groups then |groups[keys[0]]| else 0) + SumSizes(keys[1..], groups)
  }

  lemma {:induction false} SumSizesConcat(a: seq<string>, b: seq<string>, groups: map<string, seq<Tag>>)
    ensures SumSizes(a + b, groups) == SumSizes(a, groups) + SumSizes(b, groups)
    decreases |a|
  {
    if a == [] {
      assert a + b == b;
    } else {
      assert (a + b)[0] == a[0];
      assert (a + b)[1..] == a[1..] + b;
      SumSizesConcat(a[1..], b, groups);
    }
  }

  /** Changing a group that `keys` does not name leaves the sum alone. */
  lemma {:induction false} SumSizesOther(keys: seq<string>, groups: map<string, seq<Tag>>, key: string, v: seq<Tag>)
    requires key !in keys
    ensures SumSizes(keys, groups[key := v]) == SumSizes(keys, groups)
    decreases |keys|
  {
    if keys != [] {
      SumSizesOther(keys[1..], groups, key, v);
    }
  }

  /** Replacing a group that `keys` names once changes the sum by the change in its size. */
  lemma {:induction false} SumSizesReplace(keys: seq<string>, groups: map<string, seq<Tag>>, key: string, v: seq<Tag>)
    requires multiset(keys)[key] == 1 && key in groups
    ensures SumSizes(keys, groups[key := v]) + |groups[key]| == SumSizes(keys, groups) + |v|
    decreases |keys|
  {
    assert keys == [keys[0]] + keys[1..];
    if keys[0] == key {
      assert key !in keys[1..];
      SumSizesOther(keys[1..], groups, key, v);
    } else {
      SumSizesReplace(keys[1..], groups, key, v);
    }
  }

  /** The size of the group under key `k`, or 0 when there is no such group. */
  function Size(groups: map<string, seq<Tag>>, k: string): nat {
    if k in groups then |groups[k]| else 0
  }

  /** Taking the key at `j` out of the list takes its group's size out of the sum. */
  lemma SumSizesRemove(b: seq<string>, j: nat, groups: map<string, seq<Tag>>)
    requires j < |b|
    ensures SumSizes(b, groups) == Size(groups, b[j]) + SumSizes(b[..j] + b[j + 1..], groups)
    ensures multiset(b[..j] + b[j + 1..]) == multiset(b) - multiset{b[j]}
  {
    assert b == b[..j] + ([b[j]] + b[j + 1..]);
    SumSizesConcat(b[..j], [b[j]] + b[j + 1..], groups);
    SumSizesConcat(b[..j], b[j + 1..], groups);
    assert multiset(b) == multiset(b[..j]) + multiset{b[j]} + multiset(b[j + 1..]);
  }

  /** Listing the same keys in another order gives the same sum. */
  lemma {:induction false} SumSizesPermutation(a: seq<string>, b: seq<string>, groups: map<string, seq<Tag>>)
    requires multiset(a) == multiset(b)
    ensures SumSizes(a, groups) == SumSizes(b, groups)
    decreases |a|
  {
    if a == [] {
      assert |b| == |multiset(b)| == 0;
    } else {
      assert a[0] in multiset(b);
      var j :| 0 <= j < |b| && b[j] == a[0];
      SumSizesRemove(b, j, groups);
      assert a == [a[0]] + a[1..];
      assert multiset(a[1..]) == multiset(a) - multiset{a[0]};
      SumSizesPermutation(a[1..], b[..j] + b[j + 1..], groups);
    }
  }

  lemma KeyOrder()
    ensures TotalPreorder(LexLe)
  {
    forall a: string, b: string
      ensures LexLe(a, b) || LexLe(b, a)
    {
      LexLeTotal(a, b);
    }
    forall a: string, b: string, c: string | LexLe(a, b) && LexLe(b, c)
      ensures LexLe(a, c)
    {
      LexLeTransitive(a, b, c);
    }
  }

  /** The keys of the tags in `prefix`. */
  function KeySet(prefix: seq<Tag>): set<string> {
    set t | t in prefix :: GroupKey(t.name)
  }

  /** One step of the grouping: push `tag` onto the group of its key, creating the group and listing its key on first use. */
  function Push(groups: map<string, seq<Tag>>, keys: seq<string>, tag: Tag): (map<string, seq<Tag>>, seq<string>) {
    var key := GroupKey(tag.name);
    var g := if key in groups then groups else groups[key := []];
    (g[key := g[key] + [tag]], if key in groups then keys else keys + [key])
  }

  /** Each group holds exactly the tags of `prefix` with its key, in order. */
  ghost predicate GroupsFiltered(prefix: seq<Tag>, groups: map<string, seq<Tag>>) {
    forall k :: k in groups ==> groups[k] == Filter(prefix, InGroup(k))
  }

  /** `keys` lists each group's key once and nothing else. */
  ghost predicate KeysOnce(keys: seq<string>, groups: map<string, seq<Tag>>) {
    forall k :: multiset(keys)[k] == if k in groups then 1 else 0
  }

  /** What grouping `prefix` has built so far. */
  ghost predicate GroupsOf(prefix: seq<Tag>, groups: map<string, seq<Tag>>, keys: seq<string>) {
    && groups.Keys == KeySet(prefix)
    && GroupsFiltered(prefix, groups)
    && KeysOnce(keys, groups)
    && SumSizes(keys, groups) == |prefix|
  }

  lemma PushKeySet(prefix: seq<Tag>, tag: Tag, groups: map<string, seq<Tag>>, keys: seq<string>)
    requires groups.Keys == KeySet(prefix)
    ensures Push(groups, keys, tag).0.Keys == KeySet(prefix + [tag])
  {
    assert KeySet(prefix + [tag]) == KeySet(prefix) + {GroupKey(tag.name)};
  }

  lemma PushFiltered(prefix: seq<Tag>, tag: Tag, groups: map<string, seq<Tag>>, keys: seq<string>)
    requires groups.Keys == KeySet(prefix) && GroupsFiltered(prefix, groups)
    ensures GroupsFiltered(prefix + [tag], Push(groups, keys, tag).0)
  {
    var key := GroupKey(tag.name);
    var g := Push(groups, keys, tag).0;
    forall k | k in g
      ensures g[k] == Filter(prefix + [tag], InGroup(k))
    {
      FilterConcat(prefix, [tag], InGroup(k));
      if k == key && key !in groups {
        forall j | 0 <= j < |prefix|
          ensures !InGroup(key)(prefix[j])
        {
          assert GroupKey(prefix[j].name) in KeySet(prefix);
        }
        FilterDropsAll(prefix, InGroup(key));
      }
    }
  }

  lemma PushKeysOnce(groups: map<string, seq<Tag>>, keys: seq<string>, tag: Tag)
    requires KeysOnce(keys, groups)
    ensures KeysOnce(Push(groups, keys, tag).1, Push(groups, keys, tag).0)
  {
  }

  lemma PushSum(prefix: seq<Tag>, tag: Tag, groups: map<string, seq<Tag>>, keys: seq<string>)
    requires KeysOnce(keys, groups) && SumSizes(keys, groups) == |prefix|
    ensures SumSizes(Push(groups, keys, tag).1, Push(groups, keys, tag).0) == |prefix| + 1
  {
    var key := GroupKey(tag.name);
    if key in groups {
      SumSizesReplace(keys, groups, key, groups[key] + [tag]);
    } else {
      assert key !in keys;
      assert Push(groups, keys, tag).0 == groups[key := [tag]] by {
        assert [] + [tag] == [tag];
      }
      SumSizesOther(keys, groups, key, [tag]);
      SumSizesConcat(keys, [key], groups[key := [tag]]);
    }
  }

  /** Pushing one more tag keeps everything `GroupsOf` says. */
  lemma PushKeepsGroups(prefix: seq<Tag>, tag: Tag, groups: map<string, seq<Tag>>, keys: seq<string>)
    requires GroupsOf(prefix, groups, keys)
    ensures GroupsOf(prefix + [tag], Push(groups, keys, tag).0, Push(groups, keys, tag).1)
  {
    PushKeySet(prefix, tag, groups, keys);
    PushFiltered(prefix, tag, groups, keys);
    PushKeysOnce(groups, keys, tag);
    PushSum(prefix, tag, groups, keys);
  }

  /**
    The grouping reduce: each shown tag is pushed onto the group of its key,
    the group created (and its key listed) on first use.
   */
  method BuildGroups(filtered: seq<Tag>) returns (groups: map<string, seq<Tag>>, keys: seq<string>)
    ensures GroupsOf(filtered, groups, keys)
  {
    groups := map[];
    keys := [];
    ghost var seen: seq<Tag> := [];
    var i := 0;
    while i < |filtered|
      invariant 0 <= i <= |filtered|
      invariant seen == filtered[..i]
      invariant GroupsOf(seen, groups, keys)
    {
      var tag := filtered[i];
      var key := GroupKey(tag.name);
      TakeOneMore(filtered, i);
      PushKeepsGroups(seen, tag, groups, keys);
      ghost var next := Push(groups, keys, tag);
      if key !in groups {
        groups := groups[key := []];
        keys := keys + [key];
      }
      groups := groups[key := groups[key] + [tag]];
      assert groups == next.0;
      assert keys == next.1;
      seen := seen + [tag];
      i := i + 1;
    }
    assert seen == filtered;
  }

  /**
    Grouping the shown tags and listing the group keys in order. Each group is
    exactly the shown tags with its key, in their order; each key is listed
    once; and the group sizes add up to the number of shown tags.
   */
  method GroupTags(filtered: seq<Tag>) returns (groups: map<string, seq<Tag>>, sortedGroups: seq<string>)
    ensures groups.Keys == set t | t in filtered :: GroupKey(t.name)
    ensures forall k :: k in groups ==> groups[k] == Filter(filtered, InGroup(k))
    ensures forall k :: multiset(sortedGroups)[k] == if k in groups then 1 else 0
    ensures SortedBy(sortedGroups, LexLe)
    ensures SumSizes(sortedGroups, groups) == |filtered|
  {
    var keys;
    groups, keys := BuildGroups(filtered);
    sortedGroups := SortKeys(keys);
    SumSizesPermutation(keys, sortedGroups, groups);
  }

  /** `Object.keys(...).sort()`: the keys copied into an array and sorted in character order. */
  method SortKeys(keys: seq<string>) returns (sorted: seq<string>)
    ensures multiset(sorted) == multiset(keys)
    ensures SortedBy(sorted, LexLe)
  {
    var a := new string[|keys|](j requires 0 <= j < |keys| => keys[j]);
    assert a[..] == keys;
    KeyOrder();
    SortInPlace(a, LexLe);
    sorted := a[..];
  }
}
