/** OpenStreetMap elements as the renderer sees them: tag dictionaries that
    keep Python's insertion order, nodes and ways. */
module Osm {
  import Text
  import opened Wrappers

  datatype Tag = Tag(key: string, value: string)

  /** A `dict[str, str]`: pairs in insertion order, one per key. */
  type Tags = seq<Tag>

  predicate UniqueKeys(tags: Tags)
  {
    forall a, b :: 0 <= a < b < |tags| ==> tags[a].key != tags[b].key
  }

  predicate HasKey(tags: Tags, key: string)
  {
    exists k :: 0 <= k < |tags| && tags[k].key == key
  }

  /** `tags.get(key)`. */
  function Get(tags: Tags, key: string): (r: Option<string>)
    ensures r.Some? <==> HasKey(tags, key)
    ensures r.Some? ==> Tag(key, r.value) in tags
  {
    if |tags| == 0 then None
    else if tags[0].key == key then Some(tags[0].value)
    else Get(tags[1..], key)
  }

  /** `tags[key] = value`: an existing key keeps its place, a new one goes last. */
  function Set(tags: Tags, key: string, value: string): (r: Tags)
    ensures |r| == |tags| + (if HasKey(tags, key) then 0 else 1)
    ensures forall k :: 0 <= k < |tags| ==> r[k].key == tags[k].key
  {
    if |tags| == 0 then [Tag(key, value)]
    else if tags[0].key == key then [Tag(key, value)] + tags[1..]
    else [tags[0]] + Set(tags[1..], key, value)
  }

  /** `tags |= other`. */
  function Update(tags: Tags, other: Tags): Tags
    decreases |other|
  {
    if |other| == 0 then tags
    else Update(Set(tags, other[0].key, other[0].value), other[1..])
  }

  lemma {:induction false} SetGet(tags: Tags, key: string, value: string, probe: string)
    ensures Get(Set(tags, key, value), probe)
         == if probe == key then Some(value) else Get(tags, probe)
  {
    if |tags| > 0 && tags[0].key != key {
      SetGet(tags[1..], key, value, probe);
      assert Set(tags, key, value)[1..] == Set(tags[1..], key, value);
    }
  }

  lemma {:induction false} SetKeepsUnique(tags: Tags, key: string, value: string)
    requires UniqueKeys(tags)
    ensures UniqueKeys(Set(tags, key, value))
  {
    var r := Set(tags, key, value);
    if !HasKey(tags, key) {
      forall k | 0 <= k < |tags| ensures r[k] == tags[k] {
        SetUntouched(tags, key, value, k);
      }
      assert r[|tags|] == Tag(key, value) by { SetAppends(tags, key, value); }
    } else {
      forall a, b | 0 <= a < b < |r| ensures r[a].key != r[b].key {
        assert r[a].key == tags[a].key && r[b].key == tags[b].key;
      }
    }
  }

  lemma {:induction false} SetUntouched(tags: Tags, key: string, value: string, k: nat)
    requires k < |tags| && tags[k].key != key
    ensures Set(tags, key, value)[k] == tags[k]
  {
    if k > 0 && tags[0].key != key {
      SetUntouched(tags[1..], key, value, k - 1);
    }
  }

  lemma {:induction false} SetAppends(tags: Tags, key: string, value: string)
    requires !HasKey(tags, key)
    ensures Set(tags, key, value) == tags + [Tag(key, value)]
  {
    if |tags| > 0 {
      HasKeyTail(tags, key);
      SetAppends(tags[1..], key, value);
      assert tags == [tags[0]] + tags[1..];
    }
  }

  lemma HasKeyTail(tags: Tags, key: string)
    requires |tags| > 0
    ensures HasKey(tags, key) <==> tags[0].key == key || HasKey(tags[1..], key)
  {
    if HasKey(tags[1..], key) {
      var k :| 0 <= k < |tags[1..]| && tags[1..][k].key == key;
      assert tags[k + 1].key == key;
    }
    if HasKey(tags, key) && tags[0].key != key {
      var k :| 0 <= k < |tags| && tags[k].key == key;
      assert tags[1..][k - 1].key == key;
    }
  }

  /** After `tags |= other`, a key of `other` has `other`'s value and every
      other key keeps its old value; the result is still a dictionary. */
  lemma {:induction false} UpdateGet(tags: Tags, other: Tags, probe: string)
    requires UniqueKeys(tags) && UniqueKeys(other)
    decreases |other|
    ensures UniqueKeys(Update(tags, other))
    ensures Get(Update(tags, other), probe)
         == if HasKey(other, probe) then Get(other, probe) else Get(tags, probe)
  {
    if |other| > 0 {
      var t := Set(tags, other[0].key, other[0].value);
      SetKeepsUnique(tags, other[0].key, other[0].value);
      SetGet(tags, other[0].key, other[0].value, probe);
      assert UniqueKeys(other[1..]);
      UpdateGet(t, other[1..], probe);
      if probe == other[0].key {
        assert forall k :: 0 <= k < |other[1..]| ==> other[1..][k].key != probe by {
          forall k | 0 <= k < |other[1..]| ensures other[1..][k].key != probe {
            assert other[k + 1].key != other[0].key;
          }
        }
      }
      HasKeyTail(other, probe);
    }
  }

  /** `", ".join(f"{k}={tags[k]}" for k in tags)`. */
  function Render(tags: Tags): string
  {
    Text.Join(RenderPairs(tags), ", ")
  }

  function RenderPairs(tags: Tags): (r: seq<string>)
    ensures |r| == |tags|
    ensures forall k :: 0 <= k < |tags| ==> r[k] == tags[k].key + "=" + tags[k].value
  {
    if |tags| == 0 then [] else [tags[0].key + "=" + tags[0].value] + RenderPairs(tags[1..])
  }

  /** An OpenStreetMap node: tags, id and (latitude, longitude). */
  datatype OsmNode = OsmNode(tags: Tags, id: int, lat: real, lon: real)

  /** An OpenStreetMap way: tags, id and its node list. */
  datatype OsmWay = OsmWay(tags: Tags, id: int, nodes: seq<OsmNode>)

  /** A geographic box: longitudes `left`..`right`, latitudes `bottom`..`top`. */
  datatype BoundaryBox = BoundaryBox(left: real, bottom: real, right: real, top: real)
  {
    /** The node lies strictly inside the box. */
    predicate Surrounds(node: OsmNode)
    {
      left < node.lon < right && bottom < node.lat < top
    }
  }
}
