/**
 * `Codegen#name`: the LLVM symbol for a VM entity. The entity's own name
 * wins, then the name the caller suggests, then the entity's object id;
 * `::` in a name becomes `.`, and a prefix is joined with a `.`.
 */
module CodegenNames {
  import opened Wrappers
  import opened Decimal

  /** Does `s` contain `::` anywhere? */
  predicate HasDoubleColon(s: string) {
    exists i :: 0 <= i < |s| - 1 && s[i] == ':' && s[i + 1] == ':'
  }

  /** `gsub(/::/, '.')`: scanning from the left, every `::` not overlapping an earlier match becomes `.`. */
  function ReplaceColons(s: string): (r: string)
    ensures |r| <= |s|
  {
    if |s| >= 2 && s[0] == ':' && s[1] == ':' then "." + ReplaceColons(s[2..])
    else if |s| == 0 then ""
    else [s[0]] + ReplaceColons(s[1..])
  }

  /**
   * `name(prefix, entity, entity_name)`, with the entity given by its own
   * name (if any) and its object id.
   */
  function Name(prefix: Option<string>, entityName: Option<string>, suggested: Option<string>, id: nat): (r: string)
  {
    var base :=
      if entityName.Some? then ReplaceColons(entityName.value)
      else if suggested.Some? then ReplaceColons(suggested.value)
      else NatToString(id);
    if prefix.None? then base else prefix.value + "." + base
  }

  /** Once the entity has a name of its own, neither the suggested name nor the object id matters. */
  lemma OwnNameWins(prefix: Option<string>, entityName: string, s1: Option<string>, s2: Option<string>, id1: nat, id2: nat)
    ensures Name(prefix, Some(entityName), s1, id1) == Name(prefix, Some(entityName), s2, id2)
  {
  }

  /** Without a prefix, no symbol has a `::` left, whichever name it comes from. */
  lemma UnprefixedNameHasNoDoubleColon(entityName: Option<string>, suggested: Option<string>, id: nat)
    ensures !HasDoubleColon(Name(None, entityName, suggested, id))
  {
    if entityName.Some? {
      NoDoubleColonLeft(entityName.value);
    } else if suggested.Some? {
      NoDoubleColonLeft(suggested.value);
    }
  }

  /** With a prefix, the symbol is the prefix, a `.`, and the name it would have without one. */
  lemma PrefixedName(prefix: string, entityName: Option<string>, suggested: Option<string>, id: nat)
    ensures var r := Name(Some(prefix), entityName, suggested, id);
      && |r| >= |prefix| + 1
      && r[..|prefix| + 1] == prefix + "."
      && r[|prefix| + 1..] == Name(None, entityName, suggested, id)
  {
  }

  /** An entity with neither name is named by the digits of its object id, so different ids give different symbols. */
  lemma AnonymousNameSpellsId(id1: nat, id2: nat)
    ensures var r := Name(None, None, None, id1);
      && (forall i :: 0 <= i < |r| ==> '0' <= r[i] <= '9')
      && DigitsValue(r) == id1
    ensures id1 != id2 ==> Name(None, None, None, id1) != Name(None, None, None, id2)
  {
    if Name(None, None, None, id1) == Name(None, None, None, id2) {
      NatToStringInjective(id1, id2);
    }
  }

  /** No `::` survives the replacement. */
  lemma {:induction false} NoDoubleColonLeft(s: string)
    ensures !HasDoubleColon(ReplaceColons(s))
    decreases |s|
  {
    var r := ReplaceColons(s);
    if |s| >= 2 && s[0] == ':' && s[1] == ':' {
      NoDoubleColonLeft(s[2..]);
      var rest := ReplaceColons(s[2..]);
      assert forall i :: 1 <= i < |r| ==> r[i] == rest[i - 1];
    } else if |s| > 0 {
      NoDoubleColonLeft(s[1..]);
      var rest := ReplaceColons(s[1..]);
      assert forall i :: 1 <= i < |r| ==> r[i] == rest[i - 1];
      if s[0] == ':' && |rest| > 0 {
        // the colon was not matched, so the next character is not a colon
        // and is copied unchanged
        assert |s| >= 2 && s[1] != ':';
        FirstCharKept(s[1..]);
      }
    }
  }

  /** A string that does not start with `:` keeps its first character. */
  lemma FirstCharKept(s: string)
    requires |s| > 0 && s[0] != ':'
    ensures |ReplaceColons(s)| > 0 && ReplaceColons(s)[0] == s[0]
  {
  }

  /** A name without `::` is kept as it is. */
  lemma {:induction false} CleanNameKept(s: string)
    requires !HasDoubleColon(s)
    ensures ReplaceColons(s) == s
    decreases |s|
  {
    if |s| > 0 {
      if |s| >= 2 {
        assert !(s[0] == ':' && s[0 + 1] == ':');
      }
      forall i | 0 <= i < |s| - 2
        ensures !(s[1..][i] == ':' && s[1..][i + 1] == ':')
      {
        assert s[1..][i] == s[i + 1] && s[1..][i + 1] == s[i + 1 + 1];
        assert !(s[i + 1] == ':' && s[i + 1 + 1] == ':');
      }
      CleanNameKept(s[1..]);
    }
  }

  /** A nested constant path becomes a dotted symbol; an anonymous entity is named by its id. */
  lemma NestedName()
    ensures Name(Some("s"), Some("A::B"), None, 7) == "s.A.B"
    ensures Name(None, None, None, 42) == "42"
  {
    assert ReplaceColons("A::B") == "A" + ReplaceColons("::B") by {
      assert "A::B"[1..] == "::B";
    }
    assert ReplaceColons("::B") == "." + ReplaceColons("B") by {
      assert "::B"[2..] == "B";
    }
    assert ReplaceColons("B") == "B" by {
      assert "B"[1..] == "";
    }
    assert NatToString(42) == NatToString(4) + [Digit(2)];
  }
}
