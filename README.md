# Longest shiritori chain over station names — a Dafny model

The program reads Katakana station names. It builds a directed graph with one vertex per name. An edge runs from `u` to `v`
when the two are different vertices and the last character of `u`'s name is the first character of `v`'s
name (the shiritori rule). It then searches exhaustively for the longest simple path.

The graph (`Graph.java`) is an immutable snapshot. It holds a vertex set, an identifier-to-vertex index and an
adjacency map, all computed when the snapshot is built. `subGraph(v)` builds a new snapshot holding copies of
every other vertex. `find(w)` looks up, in this snapshot, the copy of a vertex that comes from another one.
The search (`Main.java`, class `Walker`) keeps three things: a track, the snapshot with the track's vertices
removed, and a set of candidates. When there is no candidate it returns the track. Otherwise it branches once
per candidate and keeps the longest result. `Requires.java` holds the four argument checks that `Graph.java` uses; `Main.java` uses only `Objects.requireNonNull` and `Optional.orElseThrow`.

Files:

- `wrappers.dfy`: `Option`, `Result`, and `Outcome` (a check that passes or fails). A Java exception is an `Err`/`Fail` value carrying a `Requires.Failure`.
- `requires.dfy`: module `Requires`, the four checks.
- `graph.dfy`: two modules.
  - `Graphs`: `Vertex` is a datatype of snapshot, label and identifier. `Graph` is a class whose fields are the set, the index and the adjacency map.
  - `Derivation`: lemmas about snapshots, and about a snapshot and the one `subGraph` derives from it.
- `chains.dfy`: module `Chains`, which defines a shiritori chain independently of the search. A chain is a sequence of vertices whose identifiers and labels are those of the snapshot, with no identifier twice, each name linking to the next.
- `walker.dfy`: module `Walkers`, the `Walker` class, its search, and the top-level `LongestChain`.

Every snapshot is summarised by `Graph.Labels()`, a map from identifier to label. The search is specified over that map. It proves three things:
- the result extends the track by a simple chain of the snapshot;
- no simple chain that starts at a candidate is longer;
- `subGraph`, `find` and `orElseThrow` never fail inside the search.

## Model

| member | source | states |
|---|---|---|
| Requires.RequireTrue | src/main/java/org/example/Requires.java:9-13 | passes exactly when the argument holds; otherwise fails with IllegalArgument |
| Requires.RequireSame | src/main/java/org/example/Requires.java:15-19 | passes exactly when both arguments are the identical reference; otherwise fails with IllegalArgument |
| Requires.RequireNotSame | src/main/java/org/example/Requires.java:21-25 | fails, with IllegalArgument, exactly when both arguments are the identical reference |
| Requires.RequireFound | src/main/java/org/example/Requires.java:27-32 | returns the value itself when one is present; fails with NoSuchElement exactly when it is absent |
| Requires.NullCases | src/test/java/org/example/TestRequires.java:33-80 | `requireSame(null, null)` passes and a single `null` fails; `requireNotSame(null, null)` fails and a single `null` passes |
| Requires.SameNotSameComplement | src/main/java/org/example/Requires.java:15-25 | on every pair of references, `requireSame` passes exactly when `requireNotSame` fails |
| Graphs.RequireKatakana | src/main/java/org/example/Graph.java:166-168 | passes exactly for a non-empty word whose every character lies in U+30A0..U+30FF (the pattern of line 104); otherwise IllegalArgument |
| Graphs.Get | src/main/java/org/example/Graph.java:56 | `Map.get`: a value exactly when the key is present, and then the stored one |
| Graphs.FirstChar | src/main/java/org/example/Graph.java:158-160 | `firstChar()`: a Katakana character occurring in the label |
| Graphs.LastChar | src/main/java/org/example/Graph.java:162-164 | `lastChar()`: a Katakana character occurring in the label |
| Graphs.Vertex.Equals | src/main/java/org/example/Graph.java:118-127 | true exactly when `other` with this vertex's identifier is `other` itself: the snapshot and the label play no part |
| Graphs.Vertex.ConnectableTo | src/main/java/org/example/Graph.java:153-156 | true exactly for two different vertices where the first character of `other`'s name is the last character of this one's |
| Graphs.Vertex.Duplicate | src/main/java/org/example/Graph.java:149-151 | the copy belongs to the new snapshot, keeps the label and `equals` the original |
| Graphs.Vertex.Neighbors | src/main/java/org/example/Graph.java:139-147 | succeeds exactly for a vertex its snapshot holds. In a valid snapshot the result is a set of that snapshot's vertices holding exactly those this vertex `connectableTo` |
| Graphs.Graph.NumVertices | src/main/java/org/example/Graph.java:59-61 | the vertex count equals the number of distinct identifiers in the snapshot |
| Graphs.Graph.BuildMappings | src/main/java/org/example/Graph.java:73-79 | the index maps every vertex's identifier to that vertex, and holds nothing else |
| Graphs.Graph.BuildEdges | src/main/java/org/example/Graph.java:81-94 | one entry per vertex; each entry is exactly the vertices of the set that the vertex `connectableTo` |
| Graphs.Graph.ConnectFrom | src/main/java/org/example/Graph.java:87-91 | starting from an empty set for `u`, the inner loop leaves `u`'s set equal to the vertices `u` connects to and no other entry changed |
| Graphs.Graph.NewVertices | src/main/java/org/example/Graph.java:26-29 | one vertex per label, the i-th label under the i-th identifier, all owned by the snapshot; as many vertices as labels, no identifier twice |
| Graphs.Graph.constructor | src/main/java/org/example/Graph.java:25-32 | a valid snapshot: index and adjacency agree with the vertex set, one vertex per label |
| Graphs.Graph.Derive | src/main/java/org/example/Graph.java:34-40 | a valid snapshot holding a copy of each given vertex, owned by the new snapshot |
| Graphs.Graph.Build | src/main/java/org/example/Graph.java:25-29 | fails, with IllegalArgument, exactly when some token is not a Katakana word. Otherwise a fresh valid snapshot with exactly one vertex per token, labelled by it and carrying its own identifier |
| Graphs.Graph.Contains | src/main/java/org/example/Graph.java:45 | in a valid snapshot, true exactly when the snapshot holds the identifier of `v` |
| Graphs.Graph.RejectsHiragana | src/test/java/org/example/TestGraph.java:33-36 | the Hiragana token "あおばだい" makes construction fail with IllegalArgument |
| Graphs.Graph.SubGraph | src/main/java/org/example/Graph.java:42-50 | succeeds exactly when `v` belongs to this snapshot by reference and by membership; otherwise IllegalArgument. On success, a fresh snapshot holding a copy of every other vertex; the receiver is unchanged |
| Graphs.Graph.Find | src/main/java/org/example/Graph.java:52-57 | a vertex of this same snapshot gives IllegalArgument. Otherwise it succeeds exactly when the identifier is present here, else NoSuchElement. A success is the vertex here that `equals` `w`, with the label this snapshot records |
| Derivation.EqualsIsIdentity | src/main/java/org/example/Graph.java:118-127 | inside one valid snapshot, `equals` (same identifier) is the same as being the same vertex |
| Derivation.RemovedLabels | src/main/java/org/example/Graph.java:47-49 | the derived snapshot labels every identifier but the removed one exactly as the parent does; it has one vertex fewer |
| Derivation.BuiltLabels | src/main/java/org/example/Graph.java:26-30 | a built snapshot labels each supplied identifier with its token and holds no other identifier |
| Derivation.NoSelfLoops | src/main/java/org/example/Graph.java:153-156 | no vertex of a valid snapshot is its own neighbour |
| Derivation.TwoStations | src/test/java/org/example/TestGraph.java:110-119 | with "アオバダイ" and "イケガミ" only, the first has exactly the second as neighbour and the second has none |
| Derivation.FindAcross | src/test/java/org/example/TestGraph.java:121-155 | a vertex cannot be looked up in its own snapshot. In the snapshot derived without it, it is not found. Every other vertex is found as its own copy |
| Walkers.Concatenate | src/main/java/org/example/Main.java:68-76 | one element longer, the old list as prefix and the new element last |
| Walkers.MaxBySize | src/main/java/org/example/Main.java:62-65 | empty exactly for no lists; otherwise one of the lists, and no other list is longer |
| Walkers.NeighborsTranslate | src/main/java/org/example/Main.java:57-58 | `v`'s neighbours translated with `find` are exactly the vertices of the derived snapshot that `v` links to |
| Walkers.ChildConsistent | src/main/java/org/example/Main.java:53-59 | the child walker's state is consistent: track plus `v`, the snapshot without `v`, and as candidates exactly the vertices `v` links to |
| Walkers.Combine | src/main/java/org/example/Main.java:62-65 | the longest child result extends the track by a simple chain that starts at a candidate, and no chain starting at a candidate is longer |
| Walkers.Walker.Root | src/main/java/org/example/Main.java:34-37 | empty track, the whole graph, every vertex a candidate; consistent for a valid graph |
| Walkers.Walker.constructor | src/main/java/org/example/Main.java:39-43 | a walker over exactly the given track, snapshot and candidates |
| Walkers.Walker.Branch | src/main/java/org/example/Main.java:53-59 | the child for a candidate has the track plus it. Its snapshot is this one without the candidate, and it is consistent. `subGraph` and every `find` succeed |
| Walkers.Walker.Explore | src/main/java/org/example/Main.java:62-63 | the joined result of one child: track plus candidate, then a simple chain of the snapshot without the candidate, and no chain there that can follow the candidate is longer |
| Walkers.Walker.InvokeAll | src/main/java/org/example/Main.java:52-63 | one result per candidate, each with the property `Explore` guarantees for its own candidate |
| Walkers.Walker.Compute | src/main/java/org/example/Main.java:45-66 | returns the track when there is no candidate. Otherwise it extends the track by a simple chain that starts at a candidate. The result is a chain with distinct identifiers and at most the track plus the snapshot's vertex count; no chain from a candidate is longer |
| Walkers.LongestChain | src/main/java/org/example/Main.java:26 | a simple chain of the graph that no simple chain exceeds, at most as long as the vertex count, and empty exactly for the empty graph |
| Walkers.CycleOfThree | src/main/java/org/example/Main.java:45-66 | for three stations chaining in a cycle, the longest chain is a simple chain of the graph of length 3: each station visited once, the cycle never closed |

## Left out

- `Main.main`: reading tokens from standard input and printing the result is I/O. `LongestChain` takes the built graph instead.
- The fork/join pool (`ForkJoinPool`, `RecursiveTask`, `invokeAll`, `join`). The children run one after another; they share no mutable state, so the result's length does not depend on the order.
- Which longest path wins a tie. It depends on hash-set iteration order and `Stream.max`. Only maximality of the length is specified.
- `UUID.randomUUID()`: the caller of `Graph.Build` supplies pairwise distinct natural identifiers. They are distinct only within one `Build` call. Two separately built graphs may share an identifier, so `Find` across them can succeed in the model, where random UUIDs make the source fail with NoSuchElementException in practice.
- The regular-expression engine: replaced by the character-range predicate `IsKatakanaWord`.
- `hashCode`, `toString`, `iterator`/`spliterator` plumbing, and every `Objects.requireNonNull`: Dafny references are never null.
- Graphs.FirstChar: the contract states only that the result is a Katakana character occurring in the label, not that it is the first one (`charAt(0)`). The position is stated where it matters, by the ensures of `Graphs.Vertex.ConnectableTo` (`other.name[0] == name[|name| - 1]`).
- Graphs.LastChar: the contract states only that the result is a Katakana character occurring in the label, not that it is the last one (`charAt(length() - 1)`). The position is stated by the ensures of `Graphs.Vertex.ConnectableTo`, as for `FirstChar`.
- Graphs.Graph.Build: checks every token before building any vertex, whereas the source fails at the first bad token while collecting the stream. Both end in IllegalArgumentException with no graph.
- Graphs.Vertex.Neighbors: looks the vertex up in the adjacency map by value (snapshot, label and identifier), whereas `HashMap.get` matches by identifier alone. The two agree on every vertex a valid snapshot holds, which are the only vertices the source ever asks about. A vertex the map lacks is an `Err(NullPointer)`, where the source throws NullPointerException.
- The failure of `Build` does not say which token was rejected: the source throws a bare IllegalArgumentException (Graph.java:167 through Requires.java:11).
