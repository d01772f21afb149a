/**
 * The rule table read from the spreadsheet, and the per-rule tests the
 * message handler applies: which rules apply to the inbound group, which
 * destination a rule names, and whether its three restrictions hold.
 */
module Rules {
  import opened Optional
  import opened Text
  import opened Seqs

  /** A spreadsheet cell as `sheet_to_json` delivers it: absent, or text. */
  type Cell = Option<string>

  /** JavaScript truthiness of a text cell: present and not the empty string. */
  predicate Filled(c: Cell) {
    c.Some? && c.value != []
  }

  /**
   * One spreadsheet row. The fields are the columns `Grupo_Origen`,
   * `Grupo_Destino`, `Restriccion_1`, `Restriccion_2` and `Restriccion_3`.
   */
  datatype Rule = Rule(origin: Cell, target: Cell, restriction1: Cell, restriction2: Cell, restriction3: Cell)

  /**
   * The `reglas.filter` test: the rule's origin cell is filled and, lower-cased,
   * contains the lower-cased (already trimmed) name of the inbound group.
   * The origin cell itself is not trimmed.
   */
  predicate Applicable(r: Rule, origen: string) {
    Filled(r.origin) && Contains(Lower(r.origin.value), Lower(origen))
  }

  /** `reglasAplicables`: the applicable rules, in table order. */
  function ApplicableRules(rules: seq<Rule>, origen: string): seq<Rule>
  {
    Filter(r => Applicable(r, origen), rules)
  }

  /** Filtering the table keeps its order. */
  lemma ApplicableRulesAppend(a: seq<Rule>, b: seq<Rule>, origen: string)
    ensures ApplicableRules(a + b, origen) == ApplicableRules(a, origen) + ApplicableRules(b, origen)
  {
    FilterAppend(r => Applicable(r, origen), a, b);
  }

  /** A rule is kept by the filter exactly when it is in the table and applies. */
  lemma ApplicableRulesMembers(rules: seq<Rule>, origen: string)
    ensures |ApplicableRules(rules, origen)| <= |rules|
    ensures forall r :: r in ApplicableRules(rules, origen) <==> r in rules && Applicable(r, origen)
  {
    FilterMembers(r => Applicable(r, origen), rules);
  }

  lemma ApplicableRulesSingle(r: Rule, origen: string)
    ensures ApplicableRules([r], origen) == if Applicable(r, origen) then [r] else []
  {
    assert [r][1..] == [];
  }

  /**
   * With an empty (trimmed) group name, every rule whose origin cell is filled
   * applies, because the empty string occurs in every string.
   */
  lemma EmptyNameMatchesEveryOrigin(r: Rule, name: string)
    requires Trim(name) == []
    ensures Applicable(r, Trim(name)) <==> Filled(r.origin)
  {
    if Filled(r.origin) {
      assert Lower(Trim(name)) == [];
      ContainsEmpty(Lower(r.origin.value));
    }
  }

  /**
   * `regla["Grupo_Destino"]?.trim()`, kept only when truthy: the trimmed
   * destination, or None when the cell is absent or only whitespace.
   */
  function Destination(r: Rule): Option<string>
  {
    if r.target.None? then None
    else
      var d := Trim(r.target.value);
      if d == [] then None else Some(d)
  }

  /**
   * A rule names a destination exactly when its destination cell is present and
   * not all whitespace; the destination is then the non-empty trimmed cell text.
   */
  lemma DestinationSpec(r: Rule)
    ensures Destination(r).Some? <==> r.target.Some? && !AllSpace(r.target.value)
    ensures Destination(r).Some? ==>
              var d := Destination(r).value;
              d != [] && NoEdgeSpace(d) && d == Trim(r.target.value)
  {
    if r.target.Some? {
      TrimEmptyIff(r.target.value);
      TrimNoEdgeSpace(r.target.value);
    }
  }

  /**
   * One restriction test: an absent or empty cell always holds; a filled one
   * holds when the lower-cased (trimmed) body contains the lower-cased cell text.
   * The restriction text itself is not trimmed.
   */
  predicate RestrictionHolds(c: Cell, contenido: string) {
    Filled(c) ==> Contains(Lower(contenido), Lower(c.value))
  }

  /** `matchRestriccion1 && matchRestriccion2 && matchRestriccion3`. */
  predicate RestrictionsHold(r: Rule, contenido: string) {
    && RestrictionHolds(r.restriction1, contenido)
    && RestrictionHolds(r.restriction2, contenido)
    && RestrictionHolds(r.restriction3, contenido)
  }

  /** A rule fires when it names a destination and all its restrictions hold. */
  predicate Fires(r: Rule, contenido: string) {
    Destination(r).Some? && RestrictionsHold(r, contenido)
  }

  /** The rule `r` with restriction column `k` (1, 2 or 3) replaced by `c`. */
  function WithRestriction(r: Rule, k: nat, c: Cell): (r': Rule)
    requires 1 <= k <= 3
    ensures r'.origin == r.origin && r'.target == r.target
    ensures r'.restriction1 == (if k == 1 then c else r.restriction1)
    ensures r'.restriction2 == (if k == 2 then c else r.restriction2)
    ensures r'.restriction3 == (if k == 3 then c else r.restriction3)
  {
    if k == 1 then r.(restriction1 := c)
    else if k == 2 then r.(restriction2 := c)
    else r.(restriction3 := c)
  }

  /** The content of restriction column `k` (1, 2 or 3). */
  function RestrictionAt(r: Rule, k: nat): Cell
    requires 1 <= k <= 3
  {
    if k == 1 then r.restriction1 else if k == 2 then r.restriction2 else r.restriction3
  }

  /**
   * Restriction monotonicity: filling an empty restriction column with text `s`
   * makes the rule's restrictions hold exactly for the bodies for which they
   * held before AND which contain `s`, so the set of such bodies can only shrink.
   */
  lemma TightenRestriction(r: Rule, k: nat, s: string, contenido: string)
    requires 1 <= k <= 3
    requires !Filled(RestrictionAt(r, k))
    requires s != []
    ensures RestrictionsHold(WithRestriction(r, k, Some(s)), contenido)
            <==> RestrictionsHold(r, contenido) && Contains(Lower(contenido), Lower(s))
    ensures Fires(WithRestriction(r, k, Some(s)), contenido) ==> Fires(r, contenido)
  {
  }
}
