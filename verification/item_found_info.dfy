/**
 The event payload handed to the four "found" events of the visitor: the name
 of the item and the two flags an observer may set, `Stop` and `Exclude`.
 The mutable .NET record is a value here; each property setter returns the
 updated record.
 */
module ItemFoundInfo {
  import opened Common

  datatype ItemArgs = ItemArgs(itemName: NullableString, stop: bool, exclude: bool) {

    /** Setter of `ItemName`. */
    function WithItemName(name: NullableString): (r: ItemArgs)
      ensures r.itemName == name
      ensures r.stop == stop && r.exclude == exclude
    {
      this.(itemName := name)
    }

    /** Setter of `Stop`. */
    function WithStop(value: bool): (r: ItemArgs)
      ensures r.stop == value
      ensures r.itemName == itemName && r.exclude == exclude
    {
      this.(stop := value)
    }

    /** Setter of `Exclude`. */
    function WithExclude(value: bool): (r: ItemArgs)
      ensures r.exclude == value
      ensures r.itemName == itemName && r.stop == stop
    {
      this.(exclude := value)
    }
  }

  /** The parameterless constructor: no name, both flags cleared. */
  function Default(): (r: ItemArgs)
    ensures r.itemName == Null
    ensures !r.stop && !r.exclude
  {
    ItemArgs(Null, false, false)
  }

  /** The three-argument constructor: a null name throws, anything else is stored as given. */
  function New(itemName: NullableString, stop: bool, exclude: bool): (r: Result<ItemArgs>)
    ensures r.Throws? <==> itemName.Null?
    ensures r.Throws? ==> r.error == ArgumentNull
    ensures r.Ok? ==> r.value.itemName == itemName && r.value.stop == stop && r.value.exclude == exclude
  {
    if itemName.Null? then Throws(ArgumentNull) else Ok(ItemArgs(itemName, stop, exclude))
  }

  /** The args the visitor creates before raising a found event: `new ItemFoundInfoEventArgs() { ItemName = name }`. */
  function Fresh(name: string): (r: ItemArgs)
    ensures r.itemName == Str(name)
    ensures !r.stop && !r.exclude
  {
    Default().WithItemName(Str(name))
  }

  /** Constructing with explicit values is the same as constructing empty and then setting each property. */
  lemma NewIsDefaultThenSetters(name: string, stop: bool, exclude: bool)
    ensures New(Str(name), stop, exclude) == Ok(Default().WithItemName(Str(name)).WithStop(stop).WithExclude(exclude))
  {
  }

  /** Setting two different properties commutes, and a later set of the same property overrides an earlier one. */
  lemma SettersIndependent(a: ItemArgs, name: NullableString, stop: bool, exclude: bool)
    ensures a.WithStop(stop).WithExclude(exclude) == a.WithExclude(exclude).WithStop(stop)
    ensures a.WithItemName(name).WithStop(stop) == a.WithStop(stop).WithItemName(name)
    ensures a.WithItemName(name).WithExclude(exclude) == a.WithExclude(exclude).WithItemName(name)
    ensures a.WithStop(!stop).WithStop(stop) == a.WithStop(stop)
    ensures a.WithStop(a.stop) == a && a.WithExclude(a.exclude) == a && a.WithItemName(a.itemName) == a
  {
  }
}
