# DendroPy taxon registry and NEWICK writer, in Dafny

This project models two coupled pieces of DendroPy and proves their properties.

**The taxon registry** (`TaxonSet` and `Taxon` in `dendropy/dataobject/taxon.py`) is modelled in `taxon.dfy`, module `Taxa`.
- A `TaxonSet` is a class holding an ordered sequence of distinct `Taxon` objects and the `_is_mutable` flag.
- A `Taxon` is a class with a label, an oid and the lazily cached `clade_mask`.
- These are modelled imperatively, as in the source:
  - lookup-or-create (`get_taxon`), `new_taxon`, `add_taxon`, `lock`/`unlock` and `clear` are methods that update the set in place;
  - `taxon_bitmask` writes the cache on the taxon;
  - `new_taxon_set` is a loop.
- The pure parts are functions: `labels()`, `all_taxa_bitmask()` and `complement_split_bitmask()`.
- `bits.dfy` (module `Bits`) models Python's unbounded integers as infinite two's complement, covering `1 << n`, `>>`, `~` and `|` on all integers. `&` is modelled only with a non-negative right operand; every `&` in the core masks with `all_taxa_bitmask()` or a taxon's `1 << i`. Its lemmas reduce every bitmask law to a statement about single bits.

**The NEWICK writer and the split renderer** (`dendropy/dataio/newick.py`) are modelled in `newick.dfy`, module `Newick`.
- A tree node is a datatype with these fields: the label of its taxon (if it has one), its own label, its oid, its optional edge length and its ordered children.
- `choose_display_tag`, `compose_node` and `compose_tree` are functions.
- `write_tree_list` is a method whose loop accumulates the stream's text.
- `split_as_newick_string` is a method with the source's bit-by-bit loop. It is proved against the function `SplitNewick`.

Two foreign helpers are parameters of the model:
- `texttools.escape_nexus_token` is the function parameter `escape`;
- the `%f`/`%0.10f` rendering of edge lengths is the function parameter `fmt`.

The oid that the `IdTagged` base class generates for a new taxon is also a parameter (`generatedOid`), because `base.py` is not part of this model.

Where the program's own comments and docstrings promise more than its code does, the model follows the code:
- The comment "force label if a leaf node" (dendropy/dataio/newick.py:237) does not hold for a leaf whose taxon has an empty label. The taxon object is truthy, so the oid fallback is never reached, and the leaf's tag is empty. `Newick.LeafTagged` states exactly when a leaf is tagged.
- The `get_taxon` docstring (dendropy/dataobject/taxon.py:179-183) speaks of an `update` switch. In the code, a lookup on a locked registry fails only when a taxon is required. With `taxon_required=False` it answers None (`Taxa.TaxonSet.GetTaxon`).
- The comment at dendropy/dataobject/taxon.py:145 says immutability is "only enforced at the add_taxon stage". Yet `add_taxon` (dendropy/dataobject/taxon.py:199-203) never consults the flag, and neither does `taxon_bitmask`. Only `get_taxon` and `new_taxon` do (`Taxa.TaxonSet.AddTaxon`, `Taxa.TaxonSet.NewTaxon`).

The lemmas about the composed text assume only that the escaper adds no punctuation of its own (`Newick.EscapeAddsNo`), which `escape_nexus_token` meets since it only adds quotes. They also assume that the tree's own labels and oids are free of the character in question (`Newick.FreeOf`).

## Model

| member | source | states |
|---|---|---|
| Taxa.Taxon.constructor | dendropy/dataobject/taxon.py:272-274 | a new taxon carries the given label and oid and has no cached clade mask |
| Taxa.TaxonSet.constructor | dendropy/dataobject/taxon.py:143-145 | a new registry is empty, has distinct members, and carries the requested mutability |
| Taxa.Matches | dendropy/dataobject/taxon.py:189 | the scan's test `taxon.oid == oid or taxon.label == label`, a None label matching a None label (no contract of its own; FirstMatch and GetTaxon use it) |
| Taxa.LabelText | dendropy/dataobject/taxon.py:222 | `str(taxon.label)`, so a missing label reads "None" (no contract of its own; Labels states it) |
| Taxa.FirstMatch | dendropy/dataobject/taxon.py:188-190 | the result is the first position whose taxon matches on oid or label; no earlier taxon matches, and None means no taxon matches |
| Taxa.IndexOf | dendropy/dataobject/taxon.py:244 | the position holds the taxon, and no earlier position does |
| Taxa.AllTaxaBitmask | dendropy/dataobject/taxon.py:228-232 | the mask plus one is 2^n, and its bit k is set exactly when k < n |
| Taxa.ComplementSplitBitmask | dendropy/dataobject/taxon.py:224-226 | the complement lies within all_taxa_bitmask; its bit k is set exactly when k < n and bit k of the split is clear |
| Taxa.ComplementDisjoint | dendropy/dataobject/taxon.py:224-226 | for any split, even a negative one, split & complement == 0 |
| Taxa.ComplementCovers | dendropy/dataobject/taxon.py:224-226 | for any split, negative ones included, (split \| complement) covers every bit of all_taxa_bitmask |
| Taxa.ComplementInvolutive | dendropy/dataobject/taxon.py:224-232 | for a split within 2^n - 1, split \| complement == all, and complementing twice gives the split back |
| Taxa.TaxonMaskWithinAll | dendropy/dataobject/taxon.py:244-245 | the mask 1 << k of a member at position k < n lies within all_taxa_bitmask |
| Taxa.TaxonMasksDisjoint | dendropy/dataobject/taxon.py:244-245 | taxa at different positions get masks with no common bit |
| Taxa.AppendKeepsIndex | dendropy/dataobject/taxon.py:211-213 | appending a taxon leaves the position, and hence the mask, of every earlier member unchanged |
| Taxa.TaxonSet.Lock | dendropy/dataobject/taxon.py:152-153 | the set becomes immutable and its members are unchanged |
| Taxa.TaxonSet.Unlock | dendropy/dataobject/taxon.py:155-156 | the set becomes mutable and its members are unchanged |
| Taxa.TaxonSet.IsLockedAsWritten | dendropy/dataobject/taxon.py:158-159 | the getter as written answers `_is_mutable`, which is true exactly when the set accepts appends |
| Taxa.TaxonSet.SetIsLockedAsWritten | dendropy/dataobject/taxon.py:161-162 | the setter as written stores v into `_is_mutable` and leaves the members alone |
| Taxa.TaxonSet.IsLocked | dendropy/dataobject/taxon.py:158-163 | the corrected getter is true exactly when the set refuses appends |
| Taxa.TaxonSet.SetIsLocked | dendropy/dataobject/taxon.py:161-163 | after the corrected setter, the corrected getter reads back v and the members are unchanged |
| Taxa.TaxonSet.Labels | dendropy/dataobject/taxon.py:220-222 | one label per member, in set order; a missing label reads "None" |
| Taxa.TaxonSet.GetTaxon | dendropy/dataobject/taxon.py:177-197 | with neither oid nor label it fails and nothing changes; on a match it returns the first matching member and nothing changes; with no match, it returns None if no taxon is required, fails on a locked set, and otherwise appends exactly one new taxon with that label and oid and returns it; the flag is never changed |
| Taxa.TaxonSet.AddTaxon | dendropy/dataobject/taxon.py:199-203 | a taxon not yet present is appended at the end and a present one changes nothing; there is no lock check |
| Taxa.TaxonSet.NewTaxon | dendropy/dataobject/taxon.py:205-213 | it fails with no change on a locked set, on a missing label when label clashes are checked, and on a taken label when clashes are checked; otherwise it appends exactly one new taxon at the end and returns it |
| Taxa.TaxonSet.Clear | dendropy/dataobject/taxon.py:215-218 | the set becomes empty and keeps its flag |
| Taxa.TaxonSet.TaxonBitmask | dendropy/dataobject/taxon.py:234-250 | a cached mask is returned unchanged; an uncached member gets 1 << index, which is stored as its clade mask; an uncached non-member is an error and nothing is stored |
| Taxa.NewTaxonSet | dendropy/dataobject/taxon.py:33-48 | the result is a fresh, mutable set of ntax distinct new uncached taxa labelled label_func(1) .. label_func(ntax), in that order |
| Taxa.CachedMaskSurvivesReorder | dendropy/dataobject/taxon.py:239-247 | a mask cached at position 1 is still returned after the taxon moves to position 0, whose mask would be 1 |
| Taxa.LockedSetReportsUnlocked | dendropy/dataobject/taxon.py:152-163 | after lock(), the getter as written reports false, the corrected getter reports true, and new_taxon refuses |
| Taxa.IntendedSetterGatesAppends | dendropy/dataobject/taxon.py:205-213 | locking through the corrected setter makes new_taxon refuse; unlocking lets it append |
| Newick.ChooseDisplayTag | dendropy/dataio/newick.py:227-243 | the tag precedence is the taxon's label, then a non-empty node label, then the oid for a leaf, else ""; a tag is escaped only when it is non-empty |
| Newick.EscapeTag | dendropy/dataio/newick.py:241-242 | the tag is passed to the escaper only when it is non-empty (no contract of its own; ChooseDisplayTag states it) |
| Newick.DefaultWriterConfig | dendropy/dataio/newick.py:197-200 | the keyword defaults: edge lengths and internal labels are written, spaces are not preserved, underscores are quoted |
| Newick.EdgeSuffix | dendropy/dataio/newick.py:256-272 | ":" and the formatted length when lengths are written and present, else nothing (no contract of its own; SuffixCount and LeafColon state it) |
| Newick.ComposeNode | dendropy/dataio/newick.py:245-273 | compose_node itself, with no contract of its own; PunctuationCount, ParensBalanced, LeafColon, NoColonWithoutEdgeLengths and TagsInPostorder state what its text holds |
| Newick.ComposeTree | dendropy/dataio/newick.py:223-225 | the seed node composed (no contract of its own) |
| Newick.TreeListText | dendropy/dataio/newick.py:218-221 | the reference definition that WriteTreeList is proved equal to; OneStatementPerTree and TreeListTextAppend state its properties |
| Newick.Join | dendropy/dataio/newick.py:253 | Python's `sep.join(items)` (no contract of its own; JoinCount and StripJoin state it) |
| Newick.QuotingAddsNoPunctuation | dendropy/dataio/newick.py:242 | an escaper that wraps tokens in single quotes adds no character but the quote, so it meets the escaper assumption of the text lemmas for every punctuation mark |
| Newick.TaxonTagPrevails | dendropy/dataio/newick.py:232-233 | two nodes with the same taxon label get the same tag, whatever their own label, oid and children |
| Newick.NodeLabelPrevailsOverOid | dendropy/dataio/newick.py:234-235 | without a taxon, two nodes with the same non-empty label get the same tag, whatever their oid and children |
| Newick.LeafTagged | dendropy/dataio/newick.py:232-243 | a leaf with a non-empty oid gets an empty tag exactly when its taxon's label is empty, given an escaper that keeps non-empty tokens non-empty |
| Newick.Subnodes | dendropy/dataio/newick.py:252 | there is one composed subnode per child |
| Newick.WriteTreeList | dendropy/dataio/newick.py:214-221 | the loop's output is TreeListText: nothing when trees are excluded, otherwise each tree composed and followed by ";\n", in order |
| Newick.JoinCount | dendropy/dataio/newick.py:253 | joining k pieces with "," adds exactly k - 1 commas and no other character |
| Newick.TagCount | dendropy/dataio/newick.py:241-243 | a display tag holds no c when the node's taxon label, own label and oid hold none and the escaper adds none |
| Newick.SuffixCount | dendropy/dataio/newick.py:256-262 | an edge suffix contributes one ":" when lengths are written and present, and no character that the formatter never produces |
| Newick.WrappedCount | dendropy/dataio/newick.py:253-255 | the parenthesised group contributes one "(" and one ")" around its contents |
| Newick.ComposeCountShape | dendropy/dataio/newick.py:245-273 | a node's text holds the writer's own punctuation plus what its children's texts hold |
| Newick.PunctuationCount | dendropy/dataio/newick.py:245-273 | when no label or oid in the tree holds c, the escaper adds no c and the length formatter emits none, c occurs in the composed text exactly as often as the writer emits it for the tree's structure |
| Newick.PunctCountZero | dendropy/dataio/newick.py:245-273 | the writer itself emits only "(", ")", "," and, when lengths are written, ":" |
| Newick.PunctCountParens | dendropy/dataio/newick.py:253 | the writer emits as many "(" as ")" over any subtree |
| Newick.ParensBalanced | dendropy/dataio/newick.py:245-273 | for a tree whose labels and oids hold no parenthesis, the composed text has as many "(" as ")" |
| Newick.NoColonWithoutEdgeLengths | dendropy/dataio/newick.py:256-273 | with edge lengths switched off and no ":" in the tree's labels and oids, no ":" appears anywhere |
| Newick.LeafColon | dendropy/dataio/newick.py:264-273 | for a leaf whose labels and oid hold no ":", its text holds ":" exactly when edge lengths are written and its edge has a length |
| Newick.TreeListTextAppend | dendropy/dataio/newick.py:218-221 | writing a concatenation of tree lists writes one list after the other |
| Newick.OneStatementPerTree | dendropy/dataio/newick.py:218-221 | for trees whose labels and oids hold no ";", the text holds one ";" per tree, or none when trees are excluded |
| Newick.StripJoin | dendropy/dataio/newick.py:253 | removing punctuation from a ","-join leaves the pieces' stripped texts, concatenated in order |
| Newick.TagsInPostorder | dendropy/dataio/newick.py:245-263 | without edge lengths, and for a tree whose labels and oids hold no "(", ")" or ",", the composed text minus its punctuation is the tags in postorder, with leaves left to right |
| Newick.EscapeLabels | dendropy/dataio/newick.py:93 | every registry label is escaped, the empty one too, and order is kept |
| Newick.BitPositions | dendropy/dataio/newick.py:99-108 | every listed position lies below the number of labels |
| Newick.SplitNewick | dendropy/dataio/newick.py:89-110 | the rendering fails exactly for a negative split over a non-empty registry, and then with the failed partition assertion |
| Newick.TrivialSplitsAlike | dendropy/dataio/newick.py:95-97 | split 0 and the all-taxa split both render as "(" + ",".join(labels) + ")" |
| Newick.BitPositionsStep | dendropy/dataio/newick.py:101-107 | one step of the loop puts label idx on the side its bit selects |
| Newick.SplitAsNewickString | dendropy/dataio/newick.py:89-110 | the loop's result is SplitNewick of the escaped registry labels |
| Newick.BitPositionsCover | dendropy/dataio/newick.py:109 | after n steps, the two sides hold n labels together |
| Newick.BitPositionsMember | dendropy/dataio/newick.py:102-105 | position i goes to the bit-set side exactly when i < n and bit i is set, and to the other side exactly when i < n and bit i is clear |
| Newick.BitPositionsAscending | dendropy/dataio/newick.py:99-108 | each side keeps registry order |
| Newick.SidesPartition | dendropy/dataio/newick.py:99-109 | together the two sides hold every label exactly as often as the registry does |
| Newick.ComplementSwapsSides | dendropy/dataio/newick.py:99-108 | the complementary split (complement_split_bitmask) puts each label on the other side |
| Newick.NontrivialSidesNonEmpty | dendropy/dataio/newick.py:95-108 | a split strictly between 0 and all_taxa_bitmask puts at least one label on each side |
| Newick.ComplementRendersSwapped | dendropy/dataio/newick.py:95-110 | the complement of a non-trivial split renders the same two groups, swapped |
| Newick.SplitAsNewickAsWritten | dendropy/dataio/newick.py:93-97 | as written, rendering succeeds only for an empty registry and split 0 |
| Newick.SplitRenderingAsWrittenFails | dendropy/dataio/newick.py:93-97 | for a non-empty registry and any non-negative split, the code as written fails while the corrected rendering succeeds |
| Bits.Pow2 | dendropy/dataobject/taxon.py:231 | `1 << n` is at least 1; Pow2Bits states that exactly bit n is set |
| Bits.Shr | dendropy/dataio/newick.py:108 | `x >> k` as k floor-halvings (no contract of its own; the loop invariant of SplitAsNewickString uses it) |
| Bits.Not | dendropy/dataobject/taxon.py:226 | `~x == -x - 1` (no contract of its own; NotBits states it) |
| Bits.And | dendropy/dataobject/taxon.py:226 | `x & y` for a non-negative y lies between 0 and y; AndBits gives its bits |
| Bits.Or | dendropy/dataobject/taxon.py:224-226 | `x \| y` on all integers is at least each operand when both are non-negative, and negative when either is; OrBits gives its bits |
| Bits.OrBits | dendropy/dataobject/taxon.py:224-226 | bit k of x \| y is set exactly when it is set in x or in y, negative operands included |
| Bits.AndBits | dendropy/dataobject/taxon.py:226 | bit k of x & y is set exactly when bit k is set in both |
| Bits.NotBits | dendropy/dataobject/taxon.py:226 | ~x flips every bit of x, negative x included |
| Bits.AllOnesBits | dendropy/dataobject/taxon.py:231-232 | (1 << n) - 1 has exactly bits 0 .. n-1 set |
| Bits.Pow2Bits | dendropy/dataobject/taxon.py:245 | 1 << n has exactly bit n set |

## Left out

- Parsing is not modelled: the tokenizer, `parse_tree_from_stream`, `tree_source_iter` and `NewickReader.read`. Their logic lives in files that are not part of this model; newick.py itself holds only stream and generator plumbing for them. The refusal to encode splits without a `taxon_set` (dendropy/dataio/newick.py:72-75) is left out with them.
- `NewickWriter.write`, dataset iteration and `tree_lists` iteration are I/O plumbing. The stream's accumulated text is `WriteTreeList`'s result.
- `texttools.escape_nexus_token` is a foreign helper. It is an arbitrary function parameter, and lemmas that need it to avoid a character say so in their requires.
- `int_to_bitstring` and `split_bitmask_string` are left out as foreign display helpers.
- `%f`/`%0.10f` formatting of edge lengths and its `ValueError` fallback are floating-point rendering. The formatter is a parameter told whether the node is a leaf. Lengths are `real`.
- `NewTaxonSet`: the default `label_func` with its `math.log` width is floating-point, so the label function is required.
- `__deepcopy__`, `__str__`, `__repr__` and `Taxon.cmp` are copying and display only.
- The `TaxonSet` constructor's initial iterable of labels or taxa is left out; the set starts empty.
- `OrderedSet` is external. It is modelled as a sequence without repeats.
- Taxa.TaxonSet.Clear: the set simply becomes empty. The remove-while-iterating behaviour of `clear` is not modelled, because it depends on the container's iterator.
- The oid that `IdTagged` generates is a parameter. Its uniqueness is not modelled.
- Truthiness of a node's taxon and edge objects is assumed; these objects are always truthy.
- A node whose taxon has the label None is not modelled; the node's taxon label is a string. In Python, `choose_display_tag` then returns None (dendropy/dataio/newick.py:233, 241-243). What happens next depends on the node:
  - a leaf with a written edge length prints `None:<length>` through `"%s"` (dendropy/dataio/newick.py:268-269);
  - an internal node with internal labels off never asks for its tag (dendropy/dataio/newick.py:254-255), so it is unaffected;
  - a leaf without a written length raises, in the parent's `','.join` or in `+ ';\n'`;
  - an internal node with internal labels on raises at dendropy/dataio/newick.py:255.
- A `clade_mask` attribute explicitly set to None is not distinguished from one never set.
- Newick.SplitAsNewickString reads `quote_underscores` from a parameter and tests `all_taxa_bitmask()`; the code as written cannot run (see Findings).

## Findings

| source | as written | input that shows it | evidently intended | confidence | as-written member | corrected member |
|---|---|---|---|---|---|---|
| dendropy/dataobject/taxon.py:158-163 | the `is_locked` getter returns `_is_mutable`, and the setter stores `bool(v)` into `_is_mutable` | `lock()`, then `is_locked` answers False although `new_taxon` refuses | `is_locked` is `not _is_mutable`, and setting it locks or unlocks | high (not executed) | Taxa.TaxonSet.IsLockedAsWritten | Taxa.TaxonSet.IsLocked |
| dendropy/dataio/newick.py:93-96 | the label list reads `quote_underscores`, which is defined nowhere, and the root test calls `all_taxon_set_bitmask`, which `TaxonSet` lacks | labels ["A", "B"] with split 1 raise NameError; an empty registry with split 1 raises AttributeError | an explicit underscore-quoting flag, and `all_taxa_bitmask()` | high (not executed) | Newick.SplitAsNewickAsWritten | Newick.SplitAsNewickString |
