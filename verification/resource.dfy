/** The six resources (src/resource.cpp): a character id, a name and an icon each. */
module Resource {
  import opened Wrappers

  /** `ResourceStr`: the resource ids in index order. */
  const ResourceStr: string := "gfbshz"

  /** `num_resources()`. */
  const NumResources: nat := 6

  /** `resource_id(n)`: the n-th character of the id string. */
  function ResourceId(n: nat): (c: char)
    requires n < NumResources
    ensures c in ResourceStr
  {
    ResourceStr[n]
  }

  /** `resource_name(n)`. */
  function ResourceName(n: nat): string
    requires n < NumResources
  {
    ["gold", "food", "blood", "scrolls", "honor", "z"][n]
  }

  /** `resource_icon(n)`: the icon table, one entry per resource. */
  function ResourceIcon(n: nat): (icon: string)
    requires n < NumResources
    ensures icon == "magic-icon-" + [ResourceId(n)]
  {
    ["magic-icon-g", "magic-icon-f", "magic-icon-b", "magic-icon-s", "magic-icon-h", "magic-icon-z"][n]
  }

  /** The index `resource_index` looks for: the first position of `c` in the id string. */
  function IndexOf(c: char): (r: Option<nat>)
    ensures r.Some? <==> c in ResourceStr
    ensures r.Some? ==> r.value < NumResources && ResourceStr[r.value] == c
    ensures r.Some? ==> forall k :: 0 <= k < r.value ==> ResourceStr[k] != c
  {
    if c == 'g' then Some(0) else if c == 'f' then Some(1) else if c == 'b' then Some(2)
    else if c == 's' then Some(3) else if c == 'h' then Some(4) else if c == 'z' then Some(5)
    else None
  }

  /** `resource_index(c)`: scans the id string and returns the first position holding
      `c`; an unknown character fails the final assertion. */
  method ResourceIndex(c: char) returns (r: Result<nat>)
    ensures r.Ok? <==> c in ResourceStr
    ensures r.Ok? ==> Some(r.value) == IndexOf(c)
  {
    var n := 0;
    while n != |ResourceStr|
      invariant 0 <= n <= |ResourceStr|
      invariant forall k :: 0 <= k < n ==> ResourceStr[k] != c
    {
      if ResourceStr[n] == c {
        return Ok(n);
      }
      n := n + 1;
    }
    return Fail("BAD RESOURCE ID");
  }

  /** Resource ids are distinct, so the index of the n-th id is n. */
  lemma IndexOfResourceId(n: nat)
    requires n < NumResources
    ensures IndexOf(ResourceId(n)) == Some(n)
  {
  }

  /** Distinct resources have distinct ids and distinct names. */
  lemma ResourcesDistinct(m: nat, n: nat)
    requires m < NumResources && n < NumResources && m != n
    ensures ResourceId(m) != ResourceId(n)
    ensures ResourceName(m) != ResourceName(n)
  {
  }
}
