/**
 * The constant table and the language enumeration of the public header.
 * Every constant keeps the header's spelling and value.
 */
module RezHeader {

  /** The C++ task definition file, preferred when present. */
  const RezDefinitionPathCpp: string := "rez.cpp"

  /** The C task definition file, the fallback. */
  const RezDefinitionPathC: string := "rez.c"

  /** The internal cache directory. */
  const CacheDir: string := ".rez"

  /** The basename of the MSVC environment cache file, nested under CacheDir. */
  const CacheFileBasename: string := "rez-env.txt"

  /** The cache subdirectory that holds task binaries. */
  const ArtifactDirBasename: string := "bin"

  /** The basename of the task binary (".exe" is appended on Windows). */
  const ArtifactBinaryUnix: string := "delegate-rez"

  /** The MSVC compiler driver. */
  const DefaultCompilerWindows: string := "cl"

  /** The UNIX C++ compiler driver. */
  const DefaultCompilerUnixCpp: string := "c++"

  /** The UNIX C compiler driver. */
  const DefaultCompilerUnixC: string := "cc"

  /** The Visual Studio 2019 script that prints the MSVC environment (one path, written in four pieces). */
  const DefaultMSVCToolchainQueryScript: string :=
    "C:\\Program Files (x86)\\" + "Microsoft Visual Studio\\" + "2019\\Community\\VC\\" + "Auxiliary\\Build\\vcvarsall.bat"

  /** The amd64 architecture in MSVC nomenclature. */
  const ArchitectureMsvcAmd64: string := "x64"

  /** The language of the task definition file. */
  datatype Lang = Cpp | C
}
