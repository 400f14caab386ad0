/** A script value that is set, saved, loaded and got back. */
module Storage {
  import opened CString
  import opened Values
  import opened EnvBlock
  import opened EnvMap
  import opened Script

  lemma SetPairGoodNames(vars: seq<Pair>, name: cstring, value: cstring)
    requires GoodNames(vars) && GoodName(name)
    ensures GoodNames(SetPair(vars, name, value))
  {
    hide GoodName;
  }

  /** The saved block reads back as the map that was saved. */
  lemma SavedMapIsLoaded(vars: seq<Pair>, size: nat)
    requires UniqueNames(vars) && GoodNames(vars) && HasRoom(SortPairs(vars), size)
    ensures var loaded := ReadBlock(Block(SortPairs(vars), size));
            loaded.ok && UniqueNames(loaded.vars) && GoodNames(loaded.vars) && Meaning(loaded.vars) == Meaning(vars)
  {
    hide Meaning, ReadBlock, Block, SortPairs, IsSortOf;
    SortPairsSorts(vars);
    var sorted := SortPairs(vars);
    SaveThenLoad(vars, sorted, size);
    PermutationOfSort(vars, sorted);
  }

  lemma PermutationOfSort(vars: seq<Pair>, sorted: seq<Pair>)
    requires IsSortOf(vars, sorted) && GoodNames(vars)
    ensures GoodNames(Reverse(sorted))
  {
    hide GoodNames;
    ReverseMultiset(sorted);
    GoodNamesPermuted(vars, Reverse(sorted));
  }

  /** setenv, saveenv, loadenv, getenv: the value comes back as a text with the
      same truth value, and a number comes back with its number.  `later` is any
      state of the machine in which the device answers with the saved block. */
  lemma ValueSurvivesStorage(st: State, name: cstring, v: Value, path: cstring, start: int, count: int,
                             saved: seq<byte>, later: State)
    requires UniqueNames(st.env) && GoodNames(st.env) && GoodName(name)
    requires DoSaveenv(DoSetenv(st, name, ToText(v)), path, start, count).effects
          == st.effects + [Called(Saveenv, [path], [start, count]), Saved(saved)]
    requires later.world.block(later.effects + [Called(Loadenv, [path], [start, count])]) == Some(saved)
    ensures var loaded := DoLoadenv(later, path, start, count);
            ValueIsLoaded(loaded, name, v)
  {
    var u := SetPair(st.env, name, ToText(v));
    SetPairGoodNames(st.env, name, ToText(v));
    SetPairMeaning(st.env, name, ToText(v));
    hide Meaning, ReadBlock, SortPairs, SetPair, GoodNames, UniqueNames, HasRoom, ToBoolean, ToNumber, ToText,
      GetVariable;
    SavedBlock(DoSetenv(st, name, ToText(v)), path, start, count, saved);
    SavedMapIsLoaded(u, 512 * count);
    TruthSurvives(v);
    if v.Num? && IsInt(v.n) {
      NumberOfText(v);
    }
  }

  /** What getenv gives, and the flag that says that it was loaded. */
  predicate ValueIsLoaded(st: State, name: cstring, v: Value) {
    var got := DoGetenv(st, name);
    && GetVariable(st, ENV_LOADED) == Some(Lit(Bool(true)))
    && got == Str(ToText(v))
    && ToBoolean(got) == ToBoolean(v)
    && (v.Num? && IsInt(v.n) ==> ToNumber(got) == v.n)
  }

  /** saveenv writes a block only when it can, and then this one. */
  lemma SavedBlock(st: State, path: cstring, start: int, count: int, saved: seq<byte>)
    requires DoSaveenv(st, path, start, count).effects
          == st.effects + [Called(Saveenv, [path], [start, count]), Saved(saved)]
    ensures count >= 0 && 512 * count >= 8 && HasRoom(SortPairs(st.env), 512 * count)
    ensures saved == Block(SortPairs(st.env), 512 * count)
  {
    hide SortPairs, HasRoom, Block;
    var call := Called(Saveenv, [path], [start, count]);
    var e := DoSaveenv(st, path, start, count).effects;
    assert |e| == |st.effects| + 2 && e[|st.effects| + 1] == Saved(saved);
  }
}
