/** The parser of the UCC_CLS list (src/components/cl/ucc_cl.c): a
    comma-separated list of collective-layer names becomes the array of the
    selected types, each once, in the order of the enum. */
module ClParse {
  import opened TlShm

  /** ucc_cl_type_t: UCC_CL_BASIC is 0 and UCC_CL_ALL is 1, the order of the
      names table; UCC_CL_LAST is the number of types, returned for a name
      that is none of them. */
  const CL_LAST: nat := 2
  type ClType = nat

  /** ucc_cl_names, without its UCC_CL_LAST terminator. */
  const CL_NAMES: seq<string> := ["basic", "all"]

  /** ucc_cl_name_to_type: the type whose entry in the names table is
      `name`, or UCC_CL_LAST. */
  function NameToType(name: string): (t: ClType)
    ensures t <= CL_LAST && |CL_NAMES| == CL_LAST
    ensures t < CL_LAST ==> CL_NAMES[t] == name
    ensures t == CL_LAST <==> name !in CL_NAMES
  {
    if name == CL_NAMES[0] then 0 else if name == CL_NAMES[1] then 1 else CL_LAST
  }

  /** Names that denote the same type are the same name. */
  lemma NameToTypeInjective(a: string, b: string)
    requires NameToType(a) < CL_LAST && NameToType(a) == NameToType(b)
    ensures a == b
  {
  }

  // ---- strtok_r(copy, ",", ...) ----

  /** The index of the first comma at or after `i`, or the end. */
  function TokenEnd(s: string, i: nat): (j: nat)
    requires i <= |s|
    ensures i <= j <= |s| && (j < |s| ==> s[j] == ',')
    ensures forall k | i <= k < j :: s[k] != ','
    decreases |s| - i
  {
    if i == |s| || s[i] == ',' then i else TokenEnd(s, i + 1)
  }

  /** The tokens strtok_r returns in turn for the delimiter ",": the
      maximal runs of characters other than a comma, empty runs skipped. */
  function Tokens(s: string): seq<string>
    decreases |s|
  {
    if |s| == 0 then []
    else if s[0] == ',' then Tokens(s[1..])
    else var j := TokenEnd(s, 0); [s[..j]] + Tokens(s[j..])
  }

  /** Every token is non-empty and holds no comma. */
  lemma {:induction false} TokensWellFormed(s: string)
    ensures forall k | 0 <= k < |Tokens(s)| :: |Tokens(s)[k]| > 0 && ',' !in Tokens(s)[k]
    decreases |s|
  {
    if |s| == 0 {
    } else if s[0] == ',' {
      TokensWellFormed(s[1..]);
    } else {
      var j := TokenEnd(s, 0);
      TokensWellFormed(s[j..]);
      assert forall c | c in s[..j] :: c != ',';
    }
  }

  /** There is no token exactly when the string is empty or commas only. */
  lemma {:induction false} NoTokensIffOnlyCommas(s: string)
    ensures Tokens(s) == [] <==> forall k | 0 <= k < |s| :: s[k] == ','
    decreases |s|
  {
    if |s| > 0 && s[0] == ',' {
      NoTokensIffOnlyCommas(s[1..]);
      assert forall k | 1 <= k < |s| :: s[k] == s[1..][k - 1];
    }
  }

  // ---- what the parse yields ----

  /** The names in the list, repeats collapsed. */
  function Names(toks: seq<string>): set<string>
  {
    set t | t in toks
  }

  /** The types named in the list. */
  function Selected(toks: seq<string>): set<ClType>
  {
    set t | t in toks :: NameToType(t)
  }

  /** The types of `sel` below `k`, ascending: what the compaction loop
      has emitted once it reaches type `k`. */
  function Upto(sel: set<ClType>, k: nat): seq<ClType>
  {
    if k == 0 then [] else Upto(sel, k - 1) + (if k - 1 in sel then [k - 1] else [])
  }

  /** The outcome ucc_parse_cls_string promises when the copy and the
      array can be allocated: INVALID_PARAM (None) for a token that names
      no type or for a list without tokens, otherwise the selected types in
      enum order. */
  function Parse(s: string): Option<seq<ClType>>
  {
    var toks := Tokens(s);
    if exists k | 0 <= k < |toks| :: NameToType(toks[k]) == CL_LAST then None
    else if |toks| == 0 then None
    else Some(Upto(Selected(toks), CL_LAST))
  }

  /** Upto lists exactly the members of `sel` below `k`. */
  lemma {:induction false} UptoMembers(sel: set<ClType>, k: nat)
    ensures forall c :: c in Upto(sel, k) <==> c in sel && c < k
  {
    if k > 0 {
      UptoMembers(sel, k - 1);
    }
  }

  /** Upto is strictly ascending. */
  lemma {:induction false} UptoSorted(sel: set<ClType>, k: nat)
    ensures forall i, j | 0 <= i < j < |Upto(sel, k)| :: Upto(sel, k)[i] < Upto(sel, k)[j]
  {
    if k > 0 {
      UptoSorted(sel, k - 1);
      UptoMembers(sel, k - 1);
      var prev := Upto(sel, k - 1);
      forall i | 0 <= i < |prev|
        ensures prev[i] < k - 1
      {
        assert prev[i] in prev;
      }
    }
  }

  /** The members of `sel` below `k`. */
  function Below(sel: set<ClType>, k: nat): set<ClType>
  {
    set c | c in sel && c < k
  }

  /** Upto has one entry per member of `sel` below `k`. */
  lemma {:induction false} UptoCount(sel: set<ClType>, k: nat)
    ensures |Upto(sel, k)| == |Below(sel, k)|
  {
    if k > 0 {
      UptoCount(sel, k - 1);
      if k - 1 in sel {
        assert Below(sel, k) == Below(sel, k - 1) + {k - 1};
        assert k - 1 !in Below(sel, k - 1);
      } else {
        assert Below(sel, k) == Below(sel, k - 1);
      }
    } else {
      assert Below(sel, 0) == {};
    }
  }

  /** A set of types below UCC_CL_LAST is all of its members below it. */
  lemma SelectionBelowLast(sel: set<ClType>)
    requires forall c | c in sel :: c < CL_LAST
    ensures Below(sel, CL_LAST) == sel
  {
  }

  /** Putting a name in front adds it to the names and its type to the
      selection. */
  lemma SelectedCons(t: string, rest: seq<string>)
    ensures Selected([t] + rest) == {NameToType(t)} + Selected(rest)
    ensures Names([t] + rest) == {t} + Names(rest)
  {
    assert forall u :: u in [t] + rest <==> u == t || u in rest;
  }

  /** A repeated name adds neither a name nor a type. */
  lemma ConsRepeated(t: string, rest: seq<string>)
    requires t in rest
    ensures Names([t] + rest) == Names(rest) && Selected([t] + rest) == Selected(rest)
  {
    SelectedCons(t, rest);
    assert NameToType(t) in Selected(rest);
  }

  /** A new valid name adds one name and one type. */
  lemma ConsNew(t: string, rest: seq<string>)
    requires t !in rest && NameToType(t) < CL_LAST
    ensures |Names([t] + rest)| == |Names(rest)| + 1 && |Selected([t] + rest)| == |Selected(rest)| + 1
  {
    SelectedCons(t, rest);
    forall u | u in rest
      ensures NameToType(u) != NameToType(t)
    {
      if NameToType(u) == NameToType(t) {
        NameToTypeInjective(t, u);
      }
    }
    assert NameToType(t) !in Selected(rest) && t !in Names(rest);
  }

  /** The selected types of a list of valid names are as many as its
      distinct names, because no two names share a type. */
  lemma {:induction false} SelectedCountsNames(toks: seq<string>)
    requires forall k | 0 <= k < |toks| :: NameToType(toks[k]) < CL_LAST
    ensures |Selected(toks)| == |Names(toks)|
  {
    if |toks| == 0 {
      assert Selected(toks) == {} && Names(toks) == {};
    } else {
      var t, rest := toks[0], toks[1..];
      assert toks == [t] + rest;
      assert forall k | 0 <= k < |rest| :: rest[k] == toks[k + 1];
      SelectedCountsNames(rest);
      if t in rest {
        ConsRepeated(t, rest);
      } else {
        ConsNew(t, rest);
      }
    }
  }

  /** A successful parse is strictly ascending, non-empty, below
      UCC_CL_LAST, holds exactly the types the list names, and has one
      entry per distinct name, so repeats collapse. */
  lemma ParseIsSortedSet(s: string)
    requires Parse(s).Some?
    ensures var r := Parse(s).value;
            && |r| >= 1
            && (forall i, j | 0 <= i < j < |r| :: r[i] < r[j])
            && (forall i | 0 <= i < |r| :: r[i] < CL_LAST)
            && (forall c :: c in r <==> exists t | t in Tokens(s) :: NameToType(t) == c)
            && |r| == |Names(Tokens(s))|
  {
    var toks := Tokens(s);
    var sel := Selected(toks);
    var r := Parse(s).value;
    UptoMembers(sel, CL_LAST);
    UptoSorted(sel, CL_LAST);
    UptoCount(sel, CL_LAST);
    SelectionBelowLast(sel);
    SelectedCountsNames(toks);
    assert toks[0] in toks;
    assert NameToType(toks[0]) in r;
    forall i | 0 <= i < |r|
      ensures r[i] < CL_LAST
    {
      assert r[i] in r;
    }
  }

  /** The outcome depends only on which names occur, not on their order or
      how often they repeat. */
  lemma ParseDependsOnNamesOnly(s1: string, s2: string)
    requires Names(Tokens(s1)) == Names(Tokens(s2))
    ensures Parse(s1) == Parse(s2)
  {
    var t1, t2 := Tokens(s1), Tokens(s2);
    assert Selected(t1) == Selected(t2) by {
      forall c ensures c in Selected(t1) <==> c in Selected(t2) {
        if c in Selected(t1) {
          var t :| t in t1 && NameToType(t) == c;
          assert t in Names(t2);
        }
        if c in Selected(t2) {
          var t :| t in t2 && NameToType(t) == c;
          assert t in Names(t1);
        }
      }
    }
    if |t1| > 0 {
      assert t1[0] in Names(t2);
    }
    if |t2| > 0 {
      assert t2[0] in Names(t1);
    }
    if exists k | 0 <= k < |t1| :: NameToType(t1[k]) == CL_LAST {
      var k :| 0 <= k < |t1| && NameToType(t1[k]) == CL_LAST;
      assert t1[k] in Names(t2);
    }
    if exists k | 0 <= k < |t2| :: NameToType(t2[k]) == CL_LAST {
      var k :| 0 <= k < |t2| && NameToType(t2[k]) == CL_LAST;
      assert t2[k] in Names(t1);
    }
  }

  /** The loop over the tokens (ucc_cl.c:61-73): each token's type is
      marked in cls_selected and counted; the first token that names no
      type stops the loop (`known` false). */
  method MarkTokens(toks: seq<string>, clsSelected: array<bool>) returns (known: bool, nSelected: nat)
    requires clsSelected.Length == CL_LAST && forall c | 0 <= c < CL_LAST :: !clsSelected[c]
    modifies clsSelected
    ensures known <==> forall k | 0 <= k < |toks| :: NameToType(toks[k]) < CL_LAST
    ensures known ==> nSelected == |toks|
    ensures known ==> forall c | 0 <= c < CL_LAST :: clsSelected[c] <==> c in Selected(toks)
  {
    nSelected := 0;
    var i := 0;
    assert toks[..0] == [] && Selected([]) == {};
    while i < |toks|
      invariant 0 <= i <= |toks| && nSelected == i
      invariant forall k | 0 <= k < i :: NameToType(toks[k]) < CL_LAST
      invariant forall c | 0 <= c < CL_LAST :: clsSelected[c] <==> c in Selected(toks[..i])
    {
      var clType := NameToType(toks[i]);
      if clType == CL_LAST {
        return false, nSelected;
      }
      assert toks[..i + 1] == toks[..i] + [toks[i]];
      nSelected := nSelected + 1;
      clsSelected[clType] := true;
      i := i + 1;
    }
    assert toks[..i] == toks;
    return true, nSelected;
  }

  /** The compaction loop (ucc_cl.c:86-91): the marked types, in enum
      order, into the first n_cls slots of the result. */
  method Compact(clsSelected: array<bool>, out: array<ClType>, ghost sel: set<ClType>) returns (nCls: nat)
    requires clsSelected.Length == CL_LAST && forall c | 0 <= c < CL_LAST :: clsSelected[c] <==> c in sel
    requires |sel| <= out.Length
    modifies out
    ensures nCls <= out.Length && out[..nCls] == Upto(sel, CL_LAST)
  {
    nCls := 0;
    var clType := 0;
    while clType < CL_LAST
      invariant 0 <= clType <= CL_LAST && nCls <= out.Length
      invariant nCls == |Upto(sel, clType)| && out[..nCls] == Upto(sel, clType)
    {
      UptoCount(sel, clType + 1);
      SubsetCard(Below(sel, clType + 1), sel);
      if clsSelected[clType] {
        out[nCls] := clType;
        nCls := nCls + 1;
        assert out[..nCls] == out[..nCls - 1] + [clType];
      }
      clType := clType + 1;
    }
  }

  /** ucc_parse_cls_string. `copied` says whether strdup of the list
      succeeded and `arrayAllocated` whether the malloc of the result did.
      An unknown name is INVALID_PARAM, so is a list without tokens; the
      result array has room for one type per token and its first n_cls
      slots hold the selected types in enum order. */
  method ParseClsString(clsStr: string, copied: bool, arrayAllocated: bool)
    returns (st: Status, cls: Option<array<ClType>>, nCls: nat)
    ensures !copied ==> st == Err(NoMemory)
    ensures copied && Parse(clsStr).None? ==> st == Err(InvalidParam)
    ensures copied && Parse(clsStr).Some? && !arrayAllocated ==> st == Err(NoMemory)
    ensures st == Ok <==> copied && arrayAllocated && Parse(clsStr).Some?
    ensures st != Ok ==> cls.None?
    ensures st == Ok ==>
              && cls.Some? && cls.value.Length == |Tokens(clsStr)| && nCls <= cls.value.Length
              && cls.value[..nCls] == Parse(clsStr).value
  {
    cls, nCls := None, 0;
    if !copied {
      return Err(NoMemory), cls, nCls;
    }
    var toks := Tokens(clsStr);
    var clsSelected := new bool[CL_LAST](_ => false);
    var known, nSelected := MarkTokens(toks, clsSelected);
    if !known || nSelected == 0 {
      return Err(InvalidParam), cls, nCls;
    }
    if !arrayAllocated {
      return Err(NoMemory), cls, nCls;
    }
    var out := new ClType[nSelected];
    SelectedCountsNames(toks);
    NamesAtMostTokens(toks);
    nCls := Compact(clsSelected, out, Selected(toks));
    return Ok, Some(out), nCls;
  }

  /** There are no more distinct names than tokens. */
  lemma {:induction false} NamesAtMostTokens(toks: seq<string>)
    ensures |Names(toks)| <= |toks|
  {
    if |toks| > 0 {
      NamesAtMostTokens(toks[1..]);
      assert toks == [toks[0]] + toks[1..];
      assert Names(toks) == {toks[0]} + Names(toks[1..]);
    }
  }

  /** A subset has no more members than its superset. */
  lemma SubsetCard(a: set<ClType>, b: set<ClType>)
    requires a <= b
    ensures |a| <= |b|
  {
    assert b == a + (b - a);
  }
}
